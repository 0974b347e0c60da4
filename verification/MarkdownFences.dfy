/**
 Which texts the block parser of the handbook generator comes to an end on, as a condition on their
 lines: a line is inside a code block, a row of a table, or neither, by the lines before it.
 */
module FenceConditions {
  import opened MarkdownLines
  import opened BlockStructure
  import opened Separators

  /** Line `k` comes after a fence that no line before `k` has closed. */
  predicate InCode(lines: seq<string>, k: nat)
    requires k <= |lines|
  {
    k > 0 && if InCode(lines, k - 1) then !FenceClose(lines[k - 1]) else FenceOpen(lines[k - 1])
  }

  /** The kind of block that line `k` would continue; `Blank` if none is open. */
  function Within(lines: seq<string>, k: nat): Kind
    requires k <= |lines|
  {
    if k == 0 then Blank
    else if Within(lines, k - 1) == Code then if FenceClose(lines[k - 1]) then Blank else Code
    else if Continues(Within(lines, k - 1), lines, k - 1) then Within(lines, k - 1)
    else KindOf(lines, k - 1)
  }

  /** Line `k` is the first of a block. */
  predicate Starts(lines: seq<string>, k: nat)
    requires k < |lines|
  {
    Within(lines, k) != Code && !Continues(Within(lines, k), lines, k)
  }

  /** A line that looks like a fence and is none, starts no table and is no row of one, outside code. */
  predicate Stray(lines: seq<string>, k: nat)
    requires k < |lines|
  {
    && !InCode(lines, k)
    && BadFence(lines, k)
    && !(Within(lines, k) == Rows && '|' in lines[k])
  }

  predicate StartsQuote(lines: seq<string>, k: nat)
    requires k < |lines|
  {
    Starts(lines, k) && KindOf(lines, k) in {Note, Quoted}
  }

  /** What the parser is called with again for the quote or callout at line `k`. */
  function InnerLines(lines: seq<string>, k: nat): (inner: seq<string>)
    requires k < |lines| && KindOf(lines, k) in {Note, Quoted}
    ensures Size(inner) < Size(lines)
  {
    InnerIsShorter(lines, k);
    Split(Inner(QuoteBody(lines, k)), '\n')
  }

  /** At some depth there is a stray fence from line `i` on. */
  ghost predicate StrayFrom(lines: seq<string>, i: nat)
    decreases Size(lines)
  {
    || (exists k :: i <= k < |lines| && Stray(lines, k))
    || (exists k :: i <= k < |lines| && StartsQuote(lines, k) && StrayFrom(InnerLines(lines, k), 0))
  }

  // A line that opens a fence continues no other block.

  lemma {:induction false} RunDrops(s: string, c: char, x: char)
    requires x in s && x != c
    ensures x in s[Run(s, c)..]
  {
    if s[0] == c {
      RunDrops(s[1..], c, x);
      assert s[1..][Run(s[1..], c)..] == s[Run(s, c)..];
    }
  }

  lemma {:induction false} TrimDrops(s: string, x: char)
    requires x in s && !IsSpace(x)
    ensures x in TrimLeft(s)
  {
    if IsSpace(s[0]) {
      TrimDrops(s[1..], x);
    }
  }

  lemma {:induction false} LanguageDrops(s: string)
    requires '|' in s
    ensures '|' in DropLanguage(s)
  {
    if s[0] != '|' {
      LanguageDrops(s[1..]);
    }
  }

  lemma FenceHasNoBar(line: string)
    requires FenceOpen(line)
    ensures '|' !in line
  {
    if '|' in line {
      RunDrops(line, '`', '|');
      TrimDrops(line[Run(line, '`')..], '|');
      LanguageDrops(TrimLeft(line[Run(line, '`')..]));
    }
  }

  lemma FenceHasTicks(line: string)
    requires FenceOpen(line)
    ensures Ticks(line)
  {
    var r := line[1..];
    assert Run(r, '`') >= 2 && r[0] == '`' && r[1..] == line[2..];
    assert Run(line[2..], '`') >= 1;
    assert line[1] == '`' && line[2] == '`';
  }

  /** Only a table swallows a line with three backticks, and only if the line has a bar. */
  lemma TicksContinueOnlyTables(kind: Kind, lines: seq<string>, j: nat)
    requires j < |lines| && Ticks(lines[j]) && kind != Code
    ensures Continues(kind, lines, j) <==> kind == Rows && '|' in lines[j]
  {
    TicksFitNothingElse(lines[j]);
  }

  lemma {:induction false} InCodeWithin(lines: seq<string>, k: nat)
    requires k <= |lines|
    ensures InCode(lines, k) <==> Within(lines, k) == Code
  {
    if k > 0 {
      InCodeWithin(lines, k - 1);
      var line := lines[k - 1];
      if FenceOpen(line) {
        FenceHasTicks(line);
        FenceHasNoBar(line);
        TicksFitNothingElse(line);
        if Within(lines, k - 1) != Code {
          TicksContinueOnlyTables(Within(lines, k - 1), lines, k - 1);
        }
      }
    }
  }

  lemma StrayStarts(lines: seq<string>, k: nat)
    requires k < |lines|
    ensures Stray(lines, k) <==> Starts(lines, k) && BadFence(lines, k)
  {
    InCodeWithin(lines, k);
    if BadFence(lines, k) && Within(lines, k) != Code {
      TicksContinueOnlyTables(Within(lines, k), lines, k);
    }
  }

  // The parser goes from the start of a block to the start of the next one.

  lemma {:induction false} StaysWithin(kind: Kind, lines: seq<string>, j: nat, k: nat)
    requires j <= |lines| && j <= k <= End(kind, lines, j) && Within(lines, j) == kind
    ensures Within(lines, k) == kind
    decreases k
  {
    if k > j {
      StaysWithin(kind, lines, j, k - 1);
      EndContinues(kind, lines, j, k - 1);
    }
  }

  /** The lines that a block collects do not start another one. */
  lemma CollectedLines(kind: Kind, lines: seq<string>, j: nat)
    requires j <= |lines| && Within(lines, j) == kind
    ensures forall k | j <= k < End(kind, lines, j) :: !Starts(lines, k)
    ensures var e := End(kind, lines, j); e < |lines| && kind != Code ==> Starts(lines, e)
    ensures var e := End(kind, lines, j); e < |lines| && kind == Code ==>
              !Starts(lines, e) && (e + 1 < |lines| ==> Starts(lines, e + 1))
  {
    var e := End(kind, lines, j);
    StaysWithin(kind, lines, j, e);
    forall k | j <= k < e ensures !Starts(lines, k) {
      StaysWithin(kind, lines, j, k);
      EndContinues(kind, lines, j, k);
    }
  }

  lemma NextStart(lines: seq<string>, i: nat)
    requires i < |lines| && Starts(lines, i) && !BadFence(lines, i)
    ensures i < Next(lines, i)
    ensures forall k | i < k < Next(lines, i) && k < |lines| :: !Starts(lines, k)
    ensures Next(lines, i) < |lines| ==> Starts(lines, Next(lines, i))
  {
    StuckExactlyAtBadFence(lines, i);
    var kind := KindOf(lines, i);
    assert Within(lines, i + 1) == kind;
    CollectedLines(kind, lines, i + 1);
    if kind !in {Blank, Heading, Break} {
      assert End(kind, lines, BodyStart(lines, i)) == End(kind, lines, i + 1);
    }
  }

  /** From the start of a block on, the parser meets no end exactly if there is a stray fence. */
  lemma {:induction false} EndlessFrom(lines: seq<string>, i: nat)
    requires i < |lines| ==> Starts(lines, i)
    ensures Scan(lines, i).endless <==> StrayFrom(lines, i)
    decreases Size(lines), |lines| + 1 - i
  {
    if i < |lines| {
      StrayStarts(lines, i);
      if !BadFence(lines, i) {
        NextStart(lines, i);
        EndlessFrom(lines, Next(lines, i));
        StrayHereOrLater(lines, i);
        if StartsQuote(lines, i) {
          EndlessFrom(InnerLines(lines, i), 0);
        }
      }
    }
  }

  /** A stray fence from a block on is inside the block, or from the next block on. */
  lemma StrayHereOrLater(lines: seq<string>, i: nat)
    requires i < |lines| && Starts(lines, i) && !BadFence(lines, i)
    ensures i < Next(lines, i)
    ensures StrayFrom(lines, i) <==>
              StrayFrom(lines, Next(lines, i))
              || (StartsQuote(lines, i) && StrayFrom(InnerLines(lines, i), 0))
  {
    NextStart(lines, i);
    forall k | i <= k < Next(lines, i) && k < |lines| ensures !Stray(lines, k) && (StartsQuote(lines, k) ==> k == i) {
      StrayStarts(lines, k);
    }
  }

  /**
   The parser comes to no end on a text exactly if, at some depth, a line outside code looks like a
   fence, is none, and is neither the first line nor a row of a table.
   */
  lemma EndlessExactly(lines: seq<string>)
    ensures Scan(lines, 0).endless <==> StrayFrom(lines, 0)
  {
    EndlessFrom(lines, 0);
  }

  /** At every depth, lines outside code that start with three backticks are fences. */
  ghost predicate FencesFit(lines: seq<string>)
    decreases Size(lines)
  {
    && (forall k | 0 <= k < |lines| && !InCode(lines, k) :: Ticks(lines[k]) ==> FenceOpen(lines[k]))
    && forall k | 0 <= k < |lines| && StartsQuote(lines, k) :: FencesFit(InnerLines(lines, k))
  }

  /** Then the parser comes to an end. */
  lemma {:induction false} FittingFencesEnd(lines: seq<string>)
    requires FencesFit(lines)
    ensures !Scan(lines, 0).endless
    decreases Size(lines)
  {
    EndlessExactly(lines);
    forall k | 0 <= k < |lines| && StartsQuote(lines, k) ensures !StrayFrom(InnerLines(lines, k), 0) {
      FittingFencesEnd(InnerLines(lines, k));
      EndlessExactly(InnerLines(lines, k));
    }
  }
}
