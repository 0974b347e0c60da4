/**
 What the blocks of a text are, by the patterns of its lines: which line starts a block of which kind,
 which lines belong to it, and what it becomes.
 */
module BlockContents {
  import opened FenceConditions
  import opened LinePatterns
  import opened MarkdownLines
  import opened BlockStructure
  import opened Separators

  ghost predicate IsBlank(line: string) {
    Only(line, 0, |line|, IsSpace)
  }

  ghost predicate StartsHeading(line: string) {
    exists level: nat, text :: IsHeading(line, level, text)
  }

  ghost predicate StartsTable(lines: seq<string>, i: nat)
    requires i < |lines|
  {
    '|' in lines[i] && i + 1 < |lines| && SeparatorPattern(lines[i + 1])
  }

  // Which patterns exclude each other.

  lemma BlankExactly(line: string)
    ensures AllSpace(line) <==> IsBlank(line)
    ensures TrimLeft(line) == "" <==> IsBlank(line)
  {
    hide IsSpace;
    assert line[0..] == line;
    AllSpaceIsOnly(line, 0);
    TrimLeftExactly(line);
    if IsBlank(line) {
      TrimLeftIs(line, |line|);
    }
  }

  lemma StartsHeadingExactly(line: string)
    ensures HeadingLevel(line) > 0 <==> StartsHeading(line)
  {
    hide IsHeading;
    HeadingExactly(line, HeadingLevel(line), HeadingText(line));
    if StartsHeading(line) {
      var level: nat, text :| IsHeading(line, level, text);
      HeadingExactly(line, level, text);
    }
  }

  lemma FirstCharacter(line: string)
    requires line != "" && !IsSpace(line[0])
    ensures TrimLeft(line) == line && !AllSpace(line)
    ensures line[0] != '>' ==> !Quote(line) && !Callout(line)
    ensures line[0] == '#' ==> !Item(line) && !Rule(line)
    ensures line[0] in {'*', '-', '_'} ==> HeadingLevel(line) == 0
  {
    assert line[0] in line;
  }

  lemma QuotesStandAlone(line: string)
    requires Quote(line)
    ensures !AllSpace(line) && !Item(line)
  {
    hide IsSpace, Marker;
    BlankExactly(line);
    TrimLeftExactly(line);
    if Marker(TrimLeft(line)) > 0 {
      MarkerFirst(TrimLeft(line));
    }
  }

  lemma ItemsStandAlone(line: string)
    requires Item(line)
    ensures !AllSpace(line) && !Quote(line)
  {
    hide IsSpace;
    BlankExactly(line);
    TrimLeftExactly(line);
    MarkerFirst(TrimLeft(line));
  }

  lemma MarkerFirst(s: string)
    requires Marker(s) > 0
    ensures s != "" && s[0] != '>'
  {
  }

  lemma BarsExclude(line: string)
    requires '|' in line
    ensures !AllSpace(line) && !FenceOpen(line) && !Rule(line)
  {
    if FenceOpen(line) {
      FenceHasNoBar(line);
    }
  }

  lemma CalloutsAreQuotes(line: string)
    requires Callout(line)
    ensures Quote(line)
  {
    assert TrimLeft(line) == line;
  }

  lemma MarksExclude(line: string)
    ensures FenceOpen(line) ==> !AllSpace(line) && HeadingLevel(line) == 0 && !Rule(line) && !Quote(line) && !Item(line)
    ensures FenceOpen(line) ==> '|' !in line
    ensures HeadingLevel(line) > 0 ==> !AllSpace(line) && !Rule(line) && !Quote(line) && !Item(line)
    ensures Rule(line) ==> !AllSpace(line) && !Quote(line) && '|' !in line
    ensures Quote(line) ==> !AllSpace(line) && !Item(line)
    ensures Callout(line) ==> Quote(line)
    ensures Item(line) ==> !AllSpace(line)
    ensures '|' in line ==> !AllSpace(line)
  {
    hide Quote, Item, Callout, AllSpace;
    if FenceOpen(line) {
      FenceHasTicks(line);
      TicksFitNothingElse(line);
      FenceHasNoBar(line);
    }
    if HeadingLevel(line) > 0 || Rule(line) {
      FirstCharacter(line);
    }
    if Quote(line) {
      QuotesStandAlone(line);
    }
    if Item(line) {
      ItemsStandAlone(line);
    }
    if '|' in line {
      BarsExclude(line);
    }
    if Callout(line) {
      CalloutsAreQuotes(line);
    }
  }

  /** Each kind of block by its pattern, and the patterns that go before it where several fit. */
  lemma KindsExactly(lines: seq<string>, i: nat)
    requires i < |lines|
    ensures var line, kind := lines[i], KindOf(lines, i);
      && (kind == Blank <==> IsBlank(line))
      && (kind == Code <==> FencePattern(line))
      && (kind == Heading <==> StartsHeading(line))
      && (kind == Break <==> RulePattern(line))
      && (kind == Note <==> CalloutPattern(line))
      && (kind == Quoted <==> QuotePattern(line) && !CalloutPattern(line))
      && (kind == Rows <==> StartsTable(lines, i) && !QuotePattern(line) && !StartsHeading(line))
      && (kind == Bullets <==> ItemPattern(line) && !RulePattern(line) && !StartsTable(lines, i))
  {
    hide AllSpace, FenceOpen, HeadingLevel, Rule, Callout, Quote, Item, Separator, IsBlank, FencePattern,
         StartsHeading, RulePattern, CalloutPattern, QuotePattern, ItemPattern, SeparatorPattern;
    var line := lines[i];
    MarksExclude(line);
    BlankExactly(line);
    FenceOpenExactly(line);
    StartsHeadingExactly(line);
    RuleExactly(line);
    CalloutExactly(line);
    QuoteExactly(line);
    ItemExactly(line);
    if i + 1 < |lines| {
      SeparatorExactly(lines[i + 1]);
    }
  }

  // What a block becomes.

  /** Line `k` goes on with a block of the given kind. */
  ghost predicate GoesOn(kind: Kind, lines: seq<string>, k: nat)
    requires k < |lines|
  {
    var line := lines[k];
    match kind
    case Code => !ClosingPattern(line)
    case Note => QuotePattern(line)
    case Quoted => QuotePattern(line)
    case Rows => '|' in line
    case Bullets =>
      || ItemPattern(line)
      || (IsBlank(line) && k + 1 < |lines| && ItemPattern(lines[k + 1]))
      || (!IsBlank(line) && ("    " <= line || "\t" <= line))
    case Plain =>
      && !IsBlank(line) && !StartsHeading(line) && !("```" <= line) && !(">" <= line)
      && !ItemPattern(line) && !StartsTable(lines, k)
    case _ => false
  }

  lemma ContinuesExactly(kind: Kind, lines: seq<string>, k: nat)
    requires k < |lines|
    ensures Continues(kind, lines, k) <==> GoesOn(kind, lines, k)
  {
    hide AllSpace, FenceClose, HeadingLevel, Quote, Item, Separator, IsBlank, ClosingPattern, StartsHeading,
         QuotePattern, ItemPattern, SeparatorPattern;
    var line := lines[k];
    BlankExactly(line);
    FenceCloseExactly(line);
    QuoteExactly(line);
    ItemExactly(line);
    StartsHeadingExactly(line);
    MarksExclude(line);
    if k + 1 < |lines| {
      ItemExactly(lines[k + 1]);
      SeparatorExactly(lines[k + 1]);
    }
  }

  /** The longest stretch of lines from `b` on that go on with a block. */
  ghost predicate Stretch(kind: Kind, lines: seq<string>, b: nat, e: nat) {
    && b <= e <= |lines|
    && (forall k | b <= k < e :: GoesOn(kind, lines, k))
    && (e < |lines| ==> !GoesOn(kind, lines, e))
  }

  lemma EndIsStretch(kind: Kind, lines: seq<string>, b: nat)
    requires b <= |lines|
    ensures Stretch(kind, lines, b, End(kind, lines, b))
  {
    hide Continues, GoesOn;
    var e := End(kind, lines, b);
    forall k | b <= k < e ensures GoesOn(kind, lines, k) {
      EndContinues(kind, lines, b, k);
      ContinuesExactly(kind, lines, k);
    }
    if e < |lines| {
      ContinuesExactly(kind, lines, e);
    }
  }

  /** The lines of a quote without their markers, each less one space. */
  ghost predicate Unmarked(marked: seq<string>, plain: seq<string>) {
    |plain| == |marked| && forall k | 0 <= k < |marked| :: UnmarkedLine(marked[k], plain[k])
  }

  ghost predicate UnmarkedLine(line: string, plain: string) {
    exists n: nat :: UnmarkedAt(line, n, plain)
  }

  ghost predicate UnmarkedAt(line: string, n: nat, plain: string) {
    && Only(line, 0, n, IsSpace) && n < |line| && line[n] == '>'
    && plain == if n + 1 < |line| && IsSpace(line[n + 1]) then line[n + 2..] else line[n + 1..]
  }

  lemma UnquoteIsUnmarked(line: string)
    requires Quote(line)
    ensures UnmarkedLine(line, Unquote(line))
  {
    hide Unquote;
    QuoteExactly(line);
    var n: nat :| Only(line, 0, n, IsSpace) && n < |line| && line[n] == '>';
    UnquoteExactly(line, n);
    assert UnmarkedAt(line, n, Unquote(line));
  }

  lemma {:induction false} UnquotedIsUnmarked(body: seq<string>)
    requires forall k | 0 <= k < |body| :: Quote(body[k])
    ensures Unmarked(body, Unquoted(body))
  {
    hide Quote, Unquote, UnmarkedLine;
    if body != [] {
      UnquoteIsUnmarked(body[0]);
      UnquotedIsUnmarked(body[1..]);
      assert forall k | 1 <= k < |body| ::
        body[k] == body[1..][k - 1] && Unquoted(body)[k] == Unquoted(body[1..])[k - 1];
    }
  }

  /** `text` is what the marked lines contain, trimmed; nothing if there are none. */
  ghost predicate Contains(marked: seq<string>, text: string) {
    exists plain :: Unmarked(marked, plain) && Trimmed(Join(plain, '\n'), text)
  }

  lemma InnerIsContained(body: seq<string>)
    requires forall k | 0 <= k < |body| :: Quote(body[k])
    ensures Contains(body, Inner(body))
  {
    hide Quote, Unmarked;
    UnquotedIsUnmarked(body);
    StripExactly(Join(Unquoted(body), '\n'));
    if body == [] {
      assert Trimmed("", "") by {
        StripExactly("");
      }
    }
  }

  /** What the block at line `i` becomes, and the line behind it, by its kind. */
  ghost predicate Becomes(lines: seq<string>, i: nat, block: Scanned, next: nat)
    requires i < |lines|
  {
    match KindOf(lines, i)
    case Blank => block == Scanned([], false) && next == i + 1
    case Heading =>
      next == i + 1 && exists level: nat, text ::
        IsHeading(lines[i], level, text) && block == Scanned([HeadingBlock(level, text)], false)
    case Break => block == Scanned([HorizontalRule], false) && next == i + 1
    case Code =>
      next > 0 && Stretch(Code, lines, i + 1, next - 1) && block == Scanned([CodeBlock(lines[i + 1..next - 1])], false)
    case Rows => Stretch(Rows, lines, i, next) && block == Scanned([TableBlock(lines[i..next])], false)
    case Bullets => Stretch(Bullets, lines, i, next) && block == Scanned([ListBlock(lines[i..next])], false)
    case Plain => Stretch(Plain, lines, i, next) && block == Scanned([Paragraph(lines[i..next])], false)
    case Note =>
      Stretch(Note, lines, i + 1, next) && exists text ::
        Contains(lines[i + 1..next], text)
        && block == Scanned([CalloutBlock(lines[i], Scan(Split(text, '\n'), 0).nodes)],
                            Scan(Split(text, '\n'), 0).endless)
    case Quoted =>
      Stretch(Quoted, lines, i, next) && exists text ::
        Contains(lines[i..next], text)
        && block == Scanned([QuoteBlock(Scan(Split(text, '\n'), 0).nodes)], Scan(Split(text, '\n'), 0).endless)
  }

  lemma QuoteBecomes(lines: seq<string>, i: nat)
    requires i < |lines| && KindOf(lines, i) in {Note, Quoted}
    ensures Becomes(lines, i, ScanBlock(lines, i), Next(lines, i))
  {
    hide KindOf, Scan, Stretch, Contains;
    EndIsStretch(KindOf(lines, i), lines, BodyStart(lines, i));
    NestedBlock(lines, i);
    InnerIsContained(QuoteBody(lines, i));
  }

  lemma LeafBecomes(lines: seq<string>, i: nat)
    requires i < |lines| && KindOf(lines, i) !in {Note, Quoted}
    ensures Becomes(lines, i, ScanBlock(lines, i), Next(lines, i))
  {
    hide KindOf, Scan, Stretch, IsHeading;
    EndIsStretch(KindOf(lines, i), lines, BodyStart(lines, i));
    if KindOf(lines, i) == Heading {
      HeadingKind(lines, i);
      HeadingExactly(lines[i], HeadingLevel(lines[i]), HeadingText(lines[i]));
    }
  }

  lemma HeadingKind(lines: seq<string>, i: nat)
    requires i < |lines| && KindOf(lines, i) == Heading
    ensures HeadingLevel(lines[i]) > 0
  {
  }

  lemma BlockBecomes(lines: seq<string>, i: nat)
    requires i < |lines|
    ensures Becomes(lines, i, ScanBlock(lines, i), Next(lines, i))
  {
    hide Becomes;
    if KindOf(lines, i) in {Note, Quoted} {
      QuoteBecomes(lines, i);
    } else {
      LeafBecomes(lines, i);
    }
  }

  // The output is the blocks of all lines that start one.

  function BlocksFrom(lines: seq<string>, i: nat): seq<Node>
    decreases |lines| - i
  {
    if i >= |lines| then []
    else (if Starts(lines, i) then ScanBlock(lines, i).nodes else []) + BlocksFrom(lines, i + 1)
  }

  lemma {:induction false} NothingStartsBetween(lines: seq<string>, i: nat, j: nat)
    requires i <= j && forall k | i <= k < j && k < |lines| :: !Starts(lines, k)
    ensures BlocksFrom(lines, i) == BlocksFrom(lines, j)
    decreases j - i
  {
    if i < j && i < |lines| {
      NothingStartsBetween(lines, i + 1, j);
    }
  }

  lemma {:induction false} ScanIsBlocks(lines: seq<string>, i: nat)
    requires (i < |lines| ==> Starts(lines, i)) && !Scan(lines, i).endless
    ensures Scan(lines, i).nodes == BlocksFrom(lines, i)
    decreases |lines| + 1 - i
  {
    hide Starts, ScanBlock;
    if i < |lines| {
      ScanSteps(lines, i);
      NextStart(lines, i);
      ScanIsBlocks(lines, Next(lines, i));
      NothingStartsBetween(lines, i + 1, Next(lines, i));
    }
  }

  lemma ScanSteps(lines: seq<string>, i: nat)
    requires i < |lines| && !Scan(lines, i).endless
    ensures !BadFence(lines, i) && !Scan(lines, Next(lines, i)).endless
    ensures Scan(lines, i).nodes == ScanBlock(lines, i).nodes + Scan(lines, Next(lines, i)).nodes
  {
    hide Scan, ScanBlock, KindOf;
    ScanStep(lines, i);
    StuckExactlyAtBadFence(lines, i);
  }

  /** A text of one heading line is that heading. */
  lemma OneHeading(line: string, level: nat, text: string)
    requires IsHeading(line, level, text) && '\n' !in line
    ensures Scan(Split(line, '\n'), 0) == Scanned([HeadingBlock(level, text)], false)
  {
    SplitOfPlain(line, '\n');
    HeadingAlone([line], level, text);
  }

  lemma HeadingAlone(lines: seq<string>, level: nat, text: string)
    requires |lines| == 1 && IsHeading(lines[0], level, text)
    ensures Scan(lines, 0) == Scanned([HeadingBlock(level, text)], false)
  {
    hide IsHeading, KindOf, FenceOpen, HeadingLevel;
    KindsExactly(lines, 0);
    HeadingExactly(lines[0], level, text);
    HeadingAt(lines, 0);
    StuckExactlyAtBadFence(lines, 0);
  }
}
