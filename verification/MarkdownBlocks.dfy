/**
 The block parser of the handbook generator: lines are grouped into blocks, quotes and callouts are
 parsed again without their markers, and every heading gets an id of its own.

 `MarkdownLines` has the line patterns and `BlockStructure` the grouping, with the exact condition
 under which the parser comes to an end. `MarkdownBlocks` is the parser.
 */
module MarkdownLines {
  predicate IsSpace(c: char) {
    c == ' ' || c == '\t' || c == '\n' || c == '\r' || c == 0x0B as char || c == 0x0C as char
  }

  predicate IsDigit(c: char) {
    '0' <= c <= '9'
  }

  predicate IsWord(c: char) {
    IsDigit(c) || 'a' <= c <= 'z' || 'A' <= c <= 'Z' || c == '_'
  }

  predicate AllSpace(s: string) {
    forall c | c in s :: IsSpace(c)
  }

  function TrimLeft(s: string): (r: string)
    ensures |r| <= |s|
    ensures r != "" ==> !IsSpace(r[0])
  {
    if s != "" && IsSpace(s[0]) then TrimLeft(s[1..]) else s
  }

  function TrimRight(s: string): (r: string)
    ensures |r| <= |s|
  {
    if s != "" && IsSpace(s[|s| - 1]) then TrimRight(s[..|s| - 1]) else s
  }

  function Strip(s: string): (r: string)
    ensures |r| <= |s|
  {
    TrimRight(TrimLeft(s))
  }

  /** How many copies of `c` the string starts with. */
  function Run(s: string, c: char): (n: nat)
    ensures n <= |s|
    ensures n < |s| ==> s[n] != c
    ensures n > 0 ==> s[0] == c
  {
    if s != "" && s[0] == c then 1 + Run(s[1..], c) else 0
  }

  function Digits(s: string): (n: nat)
    ensures n <= |s|
  {
    if s != "" && IsDigit(s[0]) then 1 + Digits(s[1..]) else 0
  }

  function Words(s: string): (n: nat)
    ensures n <= |s|
  {
    if s != "" && IsWord(s[0]) then 1 + Words(s[1..]) else 0
  }

  /** The language tag may also contain `+` and `-`. */
  predicate IsLanguage(c: char) {
    IsWord(c) || c == '+' || c == '-'
  }

  function DropLanguage(s: string): string {
    if s != "" && IsLanguage(s[0]) then DropLanguage(s[1..]) else s
  }

  /** Three or more backticks, a language tag, and nothing else but space. */
  predicate FenceOpen(line: string) {
    Run(line, '`') >= 3 && AllSpace(DropLanguage(TrimLeft(line[Run(line, '`')..])))
  }

  predicate FenceClose(line: string) {
    Run(line, '`') >= 3 && AllSpace(line[Run(line, '`')..])
  }

  /** The level of a heading line, or 0. */
  function HeadingLevel(line: string): nat {
    var h := Run(line, '#');
    if 1 <= h <= 6 && h < |line| && IsSpace(line[h]) then h else 0
  }

  function HeadingText(line: string): string {
    Strip(line[Run(line, '#')..])
  }

  /** Three or more copies of `c` and otherwise space, starting with `c`. */
  predicate RuleOf(line: string, c: char) {
    line != "" && line[0] == c && (forall x | x in line :: x == c || IsSpace(x)) && multiset(line)[c] >= 3
  }

  predicate Rule(line: string) {
    RuleOf(line, '*') || RuleOf(line, '-') || RuleOf(line, '_')
  }

  predicate Quote(line: string) {
    TrimLeft(line) != "" && TrimLeft(line)[0] == '>'
  }

  /** `> [!kind]` and whatever follows. */
  predicate Callout(line: string) {
    line != "" && line[0] == '>' &&
    var r := TrimLeft(line[1..]);
    |r| > 2 && r[..2] == "[!" &&
    var k := Words(r[2..]);
    k > 0 && 2 + k < |r| && r[2 + k] == ']'
  }

  /** A quoted line without its marker and one space after it. */
  function Unquote(line: string): (r: string)
    requires Quote(line)
    ensures |r| < |line|
  {
    var r := TrimLeft(line)[1..];
    if r != "" && IsSpace(r[0]) then r[1..] else r
  }

  predicate IsRuler(c: char) {
    IsSpace(c) || c == ':' || c == '|' || c == '-'
  }

  predicate Separator(line: string) {
    && (forall c | c in line :: IsRuler(c))
    && exists k :: 1 <= k < |line| && line[k] == '|'
  }

  /** The length of a list marker: a bullet, or a number with a dot or a parenthesis. */
  function Marker(s: string): (n: nat)
    ensures n <= |s|
  {
    if s == "" then 0
    else if s[0] == '-' || s[0] == '*' || s[0] == '+' then 1
    else
      var d := Digits(s);
      if 0 < d < |s| && (s[d] == '.' || s[d] == ')') then d + 1 else 0
  }

  predicate Item(line: string) {
    var r := TrimLeft(line);
    0 < Marker(r) < |r| && IsSpace(r[Marker(r)])
  }

  predicate Indented(line: string) {
    (|line| >= 4 && line[..4] == "    ") || (line != "" && line[0] == '\t')
  }

  predicate Ticks(line: string) {
    |line| >= 3 && line[..3] == "```"
  }
}

module BlockStructure {
  import opened Basics
  import opened Separators
  import opened MarkdownLines

  datatype Kind = Blank | Code | Heading | Break | Note | Quoted | Rows | Bullets | Plain

  predicate TableStart(lines: seq<string>, i: nat)
    requires i < |lines|
  {
    '|' in lines[i] && i + 1 < |lines| && Separator(lines[i + 1])
  }

  /** The first pattern that fits decides. */
  function KindOf(lines: seq<string>, i: nat): Kind
    requires i < |lines|
  {
    var line := lines[i];
    if AllSpace(line) then Blank
    else if FenceOpen(line) then Code
    else if HeadingLevel(line) > 0 then Heading
    else if Rule(line) then Break
    else if Callout(line) then Note
    else if Quote(line) then Quoted
    else if TableStart(lines, i) then Rows
    else if Item(line) then Bullets
    else Plain
  }

  /** Whether line `j` continues a block of the given kind. */
  predicate Continues(kind: Kind, lines: seq<string>, j: nat)
    requires j < |lines|
  {
    var line := lines[j];
    match kind
    case Code => !FenceClose(line)
    case Note => Quote(line)
    case Quoted => Quote(line)
    case Rows => '|' in line && !AllSpace(line)
    case Bullets =>
      if Item(line) then true
      else if AllSpace(line) then j + 1 < |lines| && Item(lines[j + 1])
      else Indented(line)
    case Plain =>
      && !AllSpace(line)
      && !(HeadingLevel(line) > 0 || Ticks(line) || (line != "" && line[0] == '>') || Item(line))
      && !TableStart(lines, j)
    case _ => false
  }

  /** The first line from `j` on that does not continue the block. */
  function End(kind: Kind, lines: seq<string>, j: nat): (e: nat)
    requires j <= |lines|
    ensures j <= e <= |lines|
    ensures e < |lines| ==> !Continues(kind, lines, e)
    decreases |lines| - j
  {
    if j < |lines| && Continues(kind, lines, j) then End(kind, lines, j + 1) else j
  }

  /** Where the lines of a block start that are collected one by one. */
  function BodyStart(lines: seq<string>, i: nat): (b: nat)
    requires i < |lines|
    ensures i <= b <= i + 1
  {
    if KindOf(lines, i) in {Code, Note} then i + 1 else i
  }

  /** The line at which the parser goes on. */
  function Next(lines: seq<string>, i: nat): (next: nat)
    requires i < |lines|
    ensures i <= next <= |lines| + 1
  {
    var kind := KindOf(lines, i);
    if kind in {Blank, Heading, Break} then i + 1
    else
      var e := End(kind, lines, BodyStart(lines, i));
      if kind == Code then e + 1 else e
  }

  /** A line that looks like a code fence but is none, and does not start a table. */
  predicate BadFence(lines: seq<string>, i: nat)
    requires i < |lines|
  {
    Ticks(lines[i]) && !FenceOpen(lines[i]) && !TableStart(lines, i)
  }

  lemma TicksFitNothingElse(line: string)
    requires Ticks(line)
    ensures line[0] == '`' && !AllSpace(line) && HeadingLevel(line) == 0 && !Rule(line)
    ensures !Callout(line) && !Quote(line) && !Item(line)
  {
    assert line[0] == line[..3][0] == '`';
    assert TrimLeft(line) == line;
    assert line[0] in line;
  }

  /** One iteration makes no progress exactly at such a line. */
  lemma StuckExactlyAtBadFence(lines: seq<string>, i: nat)
    requires i < |lines|
    ensures Next(lines, i) == i <==> BadFence(lines, i)
  {
    var line := lines[i];
    if Ticks(line) {
      TicksFitNothingElse(line);
    }
    if line != "" && line[0] == '>' {
      assert TrimLeft(line) == line;
    }
    if KindOf(lines, i) == Quoted || KindOf(lines, i) == Rows || KindOf(lines, i) == Bullets {
      assert Continues(KindOf(lines, i), lines, i);
    }
  }

  // What is parsed again: the lines of a quote or callout without their markers.

  function Unquoted(lines: seq<string>): (r: seq<string>)
    requires forall k | 0 <= k < |lines| :: Quote(lines[k])
    ensures |r| == |lines|
  {
    if lines == [] then [] else [Unquote(lines[0])] + Unquoted(lines[1..])
  }

  lemma {:induction false} UnquotedIsShorter(lines: seq<string>)
    requires lines != [] && forall k | 0 <= k < |lines| :: Quote(lines[k])
    ensures Size(Unquoted(lines)) < Size(lines)
  {
    if |lines| == 1 {
      assert Unquoted(lines) == [Unquote(lines[0])];
    } else {
      UnquotedIsShorter(lines[1..]);
      assert Unquoted(lines)[1..] == Unquoted(lines[1..]);
    }
  }

  function Inner(body: seq<string>): string
    requires forall k | 0 <= k < |body| :: Quote(body[k])
  {
    if body == [] then "" else Strip(Join(Unquoted(body), '\n'))
  }

  /** Every line of the stretch continues the block. */
  lemma {:induction false} EndContinues(kind: Kind, lines: seq<string>, j: nat, k: nat)
    requires j <= |lines| && j <= k < End(kind, lines, j)
    ensures Continues(kind, lines, k)
    decreases k - j
  {
    if j < k {
      EndContinues(kind, lines, j + 1, k);
    }
  }

  function QuoteBody(lines: seq<string>, i: nat): (body: seq<string>)
    requires i < |lines| && KindOf(lines, i) in {Note, Quoted}
    ensures forall k | 0 <= k < |body| :: Quote(body[k])
  {
    var b, kind := BodyStart(lines, i), KindOf(lines, i);
    assert forall k | b <= k < End(kind, lines, b) :: Quote(lines[k]) by {
      forall k | b <= k < End(kind, lines, b) ensures Quote(lines[k]) {
        EndContinues(kind, lines, b, k);
      }
    }
    lines[b..End(kind, lines, b)]
  }

  lemma InnerIsShorter(lines: seq<string>, i: nat)
    requires i < |lines| && KindOf(lines, i) in {Note, Quoted}
    ensures |Inner(QuoteBody(lines, i))| < Size(lines)
  {
    var body := QuoteBody(lines, i);
    if body == [] {
      SizeOfSlice(lines, i, i + 1);
      assert lines[i..i + 1] == [lines[i]];
      assert lines[i] != "";
    } else {
      UnquotedIsShorter(body);
      BodyFits(lines, i);
    }
  }

  lemma BodyFits(lines: seq<string>, i: nat)
    requires i < |lines| && KindOf(lines, i) in {Note, Quoted}
    ensures Size(QuoteBody(lines, i)) <= Size(lines)
  {
    var b := BodyStart(lines, i);
    SizeOfSlice(lines, b, End(KindOf(lines, i), lines, b));
  }

  // The blocks of a text, and whether the parser comes to an end.

  datatype Node =
    | CodeBlock(body: seq<string>)
    | HeadingBlock(level: nat, text: string)
    | HorizontalRule
    | CalloutBlock(first: string, inner: seq<Node>)
    | QuoteBlock(inner: seq<Node>)
    | TableBlock(rows: seq<string>)
    | ListBlock(lines: seq<string>)
    | Paragraph(lines: seq<string>)

  datatype Scanned = Scanned(nodes: seq<Node>, endless: bool)

  /** The blocks from line `i` on; `endless` when some level of nesting meets a bad fence. */
  function Scan(lines: seq<string>, i: nat): Scanned
    decreases Size(lines), |lines| + 1 - i
  {
    if i >= |lines| then Scanned([], false)
    else if BadFence(lines, i) then Scanned([], true)
    else
      StuckExactlyAtBadFence(lines, i);
      var rest := Scan(lines, Next(lines, i));
      var here := ScanBlock(lines, i);
      if here.endless then here else Scanned(here.nodes + rest.nodes, rest.endless)
  }

  /** The block that starts at line `i`. */
  function ScanBlock(lines: seq<string>, i: nat): Scanned
    requires i < |lines|
    decreases Size(lines), |lines| - i
  {
    var b := BodyStart(lines, i);
    var kind := KindOf(lines, i);
    var body := lines[b..End(kind, lines, b)];
    match kind
    case Blank => Scanned([], false)
    case Code => Scanned([CodeBlock(body)], false)
    case Heading => Scanned([HeadingBlock(HeadingLevel(lines[i]), HeadingText(lines[i]))], false)
    case Break => Scanned([HorizontalRule], false)
    case Note =>
      InnerIsShorter(lines, i);
      var inner := Scan(Split(Inner(QuoteBody(lines, i)), '\n'), 0);
      Scanned([CalloutBlock(lines[i], inner.nodes)], inner.endless)
    case Quoted =>
      InnerIsShorter(lines, i);
      var inner := Scan(Split(Inner(QuoteBody(lines, i)), '\n'), 0);
      Scanned([QuoteBlock(inner.nodes)], inner.endless)
    case Rows => Scanned([TableBlock(body)], false)
    case Bullets => Scanned([ListBlock(body)], false)
    case Plain => Scanned([Paragraph(body)], false)
  }

  /** One step of the scan. */
  lemma ScanStep(lines: seq<string>, i: nat)
    ensures i >= |lines| ==> Scan(lines, i) == Scanned([], false)
    ensures i < |lines| ==>
              var here, rest := ScanBlock(lines, i), Scan(lines, Next(lines, i));
              && (Scan(lines, i).endless <==> Next(lines, i) == i || here.endless || rest.endless)
              && (!Scan(lines, i).endless ==> Scan(lines, i).nodes == here.nodes + rest.nodes)
  {
    hide KindOf, ScanBlock;
    if i < |lines| {
      StuckExactlyAtBadFence(lines, i);
    }
  }

  lemma NestedBlock(lines: seq<string>, i: nat)
    requires i < |lines| && KindOf(lines, i) in {Note, Quoted}
    ensures var here, inner := ScanBlock(lines, i), Scan(Split(Inner(QuoteBody(lines, i)), '\n'), 0);
      && here.endless == inner.endless
      && here.nodes ==
         [if KindOf(lines, i) == Note then CalloutBlock(lines[i], inner.nodes) else QuoteBlock(inner.nodes)]
  {
    hide Scan, KindOf;
  }

  lemma OutlineOfNested(first: string, inner: seq<Node>)
    ensures Outline([CalloutBlock(first, inner)]) == Outline(inner) == Outline([QuoteBlock(inner)])
  {
    OutlineOfOne(CalloutBlock(first, inner));
    OutlineOfOne(QuoteBlock(inner));
  }

  lemma HeadingAt(lines: seq<string>, i: nat)
    requires i < |lines| && KindOf(lines, i) == Heading
    ensures ScanBlock(lines, i) == Scanned([HeadingBlock(HeadingLevel(lines[i]), HeadingText(lines[i]))], false)
  {
  }

  lemma OutlineOfOne(node: Node)
    ensures Outline([node]) == OutlineOf(node)
  {
    assert Outline([node][1..]) == [];
  }

  /** The headings of a list of blocks in document order, nested ones included. */
  function Outline(nodes: seq<Node>): seq<(nat, string)> {
    if nodes == [] then [] else OutlineOf(nodes[0]) + Outline(nodes[1..])
  }

  function OutlineOf(node: Node): seq<(nat, string)> {
    match node
    case HeadingBlock(level, text) => [(level, text)]
    case CalloutBlock(_, inner) => Outline(inner)
    case QuoteBlock(inner) => Outline(inner)
    case _ => []
  }

  lemma {:induction false} OutlineAppend(a: seq<Node>, b: seq<Node>)
    ensures Outline(a + b) == Outline(a) + Outline(b)
  {
    if a == [] {
      assert a + b == b;
    } else {
      OutlineAppend(a[1..], b);
      assert (a + b)[1..] == a[1..] + b;
      Associative(OutlineOf(a[0]), Outline(a[1..]), Outline(b));
    }
  }

  /** A heading adds itself where it stands, a quote or callout what is inside, and any other block nothing. */
  lemma OutlineExactly(before: seq<Node>, node: Node, after: seq<Node>)
    ensures node.HeadingBlock? ==>
              Outline(before + [node] + after) == Outline(before) + [(node.level, node.text)] + Outline(after)
    ensures node.CalloutBlock? || node.QuoteBlock? ==>
              Outline(before + [node] + after) == Outline(before + node.inner + after)
    ensures !node.HeadingBlock? && !node.CalloutBlock? && !node.QuoteBlock? ==>
              Outline(before + [node] + after) == Outline(before + after)
  {
    OutlineAppend(before + [node], after);
    OutlineAppend(before, [node]);
    OutlineOfOne(node);
    OutlineAppend(before, after);
    if node.CalloutBlock? || node.QuoteBlock? {
      OutlineAppend(before + node.inner, after);
      OutlineAppend(before, node.inner);
    }
  }

  /** The parser need not come to an end: a line that opens a fence and has a backtick after the language. */
  lemma StrayBacktickIsEndless()
    ensures Scan(["```a`"], 0).endless
  {
    var line := "```a`";
    FourSteps(line);
    assert line[3..] == "a`";
    BacktickIsNoLanguage("a`");
    assert Ticks(line) && !FenceOpen(line);
  }

  lemma BacktickIsNoLanguage(s: string)
    requires |s| == 2 && s[0] == 'a' && s[1] == '`'
    ensures !AllSpace(DropLanguage(TrimLeft(s)))
  {
    assert TrimLeft(s) == s;
    var r := s[1..];
    assert DropLanguage(s) == DropLanguage(r) == r;
    assert r[0] in r && !IsSpace('`');
  }

  lemma FourSteps(line: string)
    requires |line| > 3 && line[0] == line[1] == line[2] == '`' && line[3] != '`'
    ensures Run(line, '`') == 3
  {
    assert Run(line[3..], '`') == 0;
    assert line[2..][1..] == line[3..] && line[1..][1..] == line[2..];
    assert Run(line[2..], '`') == 1;
    assert Run(line[1..], '`') == 2;
  }
}

module MarkdownBlocks {
  import opened Basics
  import opened Separators
  import opened MarkdownLines
  import opened BlockStructure
  import BlockContents
  import FenceConditions
  import FreeNames
  import LinePatterns

  datatype HeadingEntry = HeadingEntry(level: nat, text: string, id: string)

  ghost predicate DistinctIds(headings: seq<HeadingEntry>) {
    forall i, j | 0 <= i < j < |headings| :: headings[i].id != headings[j].id
  }

  function Ids(headings: seq<HeadingEntry>): set<string> {
    set h | h in headings :: h.id
  }

  /** Heading `i` has the first id for its slug that no earlier heading has. */
  ghost predicate HasFirstFreeId(slug: string -> string, headings: seq<HeadingEntry>, i: nat)
    requires i < |headings|
  {
    exists k: nat :: FreeNames.FirstFree(slug(headings[i].text), Ids(headings[..i]), k)
                     && headings[i].id == FreeNames.Candidate(slug(headings[i].text), k)
  }

  ghost predicate FirstFreeIds(slug: string -> string, headings: seq<HeadingEntry>, from: nat) {
    forall i | from <= i < |headings| :: HasFirstFreeId(slug, headings, i)
  }

  /** The headings before are kept, and the new ones have ids of their own. */
  ghost predicate Extends(slug: string -> string, before: seq<HeadingEntry>, after: seq<HeadingEntry>) {
    && before <= after
    && (DistinctIds(before) ==> DistinctIds(after))
    && FirstFreeIds(slug, after, |before|)
  }

  lemma ExtendsTransitive(slug: string -> string, a: seq<HeadingEntry>, b: seq<HeadingEntry>, c: seq<HeadingEntry>)
    requires Extends(slug, a, b) && Extends(slug, b, c)
    ensures Extends(slug, a, c) && |a| <= |b| <= |c|
    ensures Entries(c[|a|..]) == Entries(b[|a|..]) + Entries(c[|b|..])
  {
    forall i | |a| <= i < |c| ensures HasFirstFreeId(slug, c, i) {
      if i < |b| {
        assert HasFirstFreeId(slug, b, i);
        assert c[..i] == b[..i] && c[i] == b[i];
      }
    }
    assert c[|a|..] == b[|a|..] + c[|b|..];
  }

  lemma NothingAdded(slug: string -> string, headings: seq<HeadingEntry>)
    ensures Extends(slug, headings, headings)
    ensures Entries(headings[|headings|..]) == [] == Outline([])
  {
  }

  function Entries(headings: seq<HeadingEntry>): seq<(nat, string)> {
    seq(|headings|, i requires 0 <= i < |headings| => (headings[i].level, headings[i].text))
  }

  /** The scan of a text is the blocks of its lines, and a heading line alone is one heading. */
  lemma HeadingTexts(md: string)
    ensures var scanned := Scan(Split(md, '\n'), 0);
      && (!scanned.endless ==> scanned.nodes == BlockContents.BlocksFrom(Split(md, '\n'), 0))
      && forall level: nat, text: string | LinePatterns.IsHeading(md, level, text) && '\n' !in md ::
           !scanned.endless && Outline(scanned.nodes) == [(level, text)]
  {
    hide Scan;
    var lines := Split(md, '\n');
    if !Scan(lines, 0).endless {
      BlockContents.ScanIsBlocks(lines, 0);
    }
    forall level: nat, text: string | LinePatterns.IsHeading(md, level, text) && '\n' !in md
      ensures !Scan(lines, 0).endless && Outline(Scan(lines, 0).nodes) == [(level, text)]
    {
      BlockContents.OneHeading(md, level, text);
      OutlineOfOne(HeadingBlock(level, text));
    }
  }

  class Chapter {
    /** The headings found so far, shared by all levels of nesting. */
    var headings: seq<HeadingEntry>
    const slug: string -> string

    constructor (slug: string -> string)
      ensures headings == [] && this.slug == slug
    {
      headings := [];
      this.slug := slug;
    }

    method AddHeading(level: nat, text: string)
      modifies this
      ensures Extends(slug, old(headings), headings)
      ensures |headings| == |old(headings)| + 1
      ensures headings[|old(headings)|].level == level && headings[|old(headings)|].text == text
      ensures Entries(headings[|old(headings)|..]) == [(level, text)]
    {
      ghost var before := headings;
      var id := FreeNames.NextFree(slug(text), Ids(headings));
      ghost var k: nat :| FreeNames.FirstFree(slug(text), Ids(before), k) && id == FreeNames.Candidate(slug(text), k);
      headings := headings + [HeadingEntry(level, text, id)];
      assert headings[..|before|] == before;
      assert FreeNames.FirstFree(slug(headings[|before|].text), Ids(headings[..|before|]), k);
      assert headings[|before|..] == [HeadingEntry(level, text, id)];
    }

    /** Collects lines while they continue the block. */
    method Collect(kind: Kind, lines: seq<string>, from: nat) returns (body: seq<string>, j: nat)
      requires from <= |lines|
      ensures j == End(kind, lines, from) && body == lines[from..j]
    {
      j := from;
      body := [];
      while j < |lines| && Continues(kind, lines, j)
        invariant from <= j <= |lines| && body == lines[from..j]
        invariant End(kind, lines, from) == End(kind, lines, j)
      {
        body := body + [lines[j]];
        j := j + 1;
      }
    }

    /**
     Parses a text. `done` is false where the program would not come to an end: exactly on the
     texts in which, at some depth, a line outside code only looks like a fence.
     */
    method ParseBlocks(md: string) returns (out: seq<Node>, done: bool)
      modifies this
      ensures done <==> !FenceConditions.StrayFrom(Split(md, '\n'), 0)
      ensures done <==> !Scan(Split(md, '\n'), 0).endless
      ensures Extends(slug, old(headings), headings)
      ensures done ==> out == Scan(Split(md, '\n'), 0).nodes == BlockContents.BlocksFrom(Split(md, '\n'), 0)
      ensures forall level: nat, text: string | LinePatterns.IsHeading(md, level, text) && '\n' !in md ::
                done && Entries(headings[|old(headings)|..]) == [(level, text)]
      ensures done ==> Entries(headings[|old(headings)|..]) == Outline(out)
      decreases |md|, 3
    {
      var lines := Split(md, '\n');
      FenceConditions.EndlessExactly(lines);
      HeadingTexts(md);
      out, done := ParseLines(lines, |md|);
    }

    /** The loop over the lines; without progress at a line, the program would stay there. */
    method ParseLines(lines: seq<string>, ghost size: nat) returns (out: seq<Node>, done: bool)
      requires Size(lines) == size
      modifies this
      ensures done <==> !Scan(lines, 0).endless
      ensures Extends(slug, old(headings), headings)
      ensures done ==> out == Scan(lines, 0).nodes
      ensures done ==> Entries(headings[|old(headings)|..]) == Outline(out)
      decreases size, 2
    {
      hide Scan, ScanBlock, Extends, KindOf;
      out := [];
      var i := 0;
      ghost var goal := Scan(lines, 0);
      NothingAdded(slug, headings);
      while i < |lines|
        invariant 0 <= i <= |lines| + 1
        invariant goal.endless == Scan(lines, i).endless
        invariant !goal.endless ==> goal.nodes == out + Scan(lines, i).nodes
        invariant Extends(slug, old(headings), headings) && |old(headings)| <= |headings|
        invariant Entries(headings[|old(headings)|..]) == Outline(out)
        decreases |lines| + 1 - i
      {
        ScanStep(lines, i);
        ghost var before := headings;
        var nodes, next, ok := ParseBlock(lines, i, size);
        ExtendsTransitive(slug, old(headings), before, headings);
        if !ok || next == i {
          return out, false;
        }
        OutlineAppend(out, nodes);
        Associative(out, nodes, Scan(lines, next).nodes);
        out := out + nodes;
        i := next;
      }
      ScanStep(lines, i);
      return out, true;
    }

    /** The lines of a quote or callout without their markers. */
    method CollectQuote(lines: seq<string>, i: nat) returns (text: string, next: nat)
      requires i < |lines| && KindOf(lines, i) in {Note, Quoted}
      ensures text == Inner(QuoteBody(lines, i)) && next == Next(lines, i)
    {
      var body, j := Collect(KindOf(lines, i), lines, BodyStart(lines, i));
      assert body == QuoteBody(lines, i);
      text, next := Inner(body), j;
    }

    /** Collects a quote or callout and parses what it contains. */
    method ParseInner(lines: seq<string>, i: nat, ghost size: nat)
      returns (nodes: seq<Node>, next: nat, ok: bool)
      requires i < |lines| && Size(lines) == size && KindOf(lines, i) in {Note, Quoted}
      modifies this
      ensures ok <==> !ScanBlock(lines, i).endless
      ensures next == Next(lines, i)
      ensures Extends(slug, old(headings), headings)
      ensures ok ==> nodes == ScanBlock(lines, i).nodes
      ensures ok ==> Entries(headings[|old(headings)|..]) == Outline(nodes)
      decreases size, 0
    {
      hide *;
      NestedBlock(lines, i);
      var text, inner;
      text, next := CollectQuote(lines, i);
      InnerIsShorter(lines, i);
      inner, ok := ParseBlocks(text);
      nodes := [if KindOf(lines, i) == Note then CalloutBlock(lines[i], inner) else QuoteBlock(inner)];
      OutlineOfNested(lines[i], inner);
    }

    /**
     One block: what is collected, and for quotes and callouts what their contents parse to. `next` is
     the line behind it.
     */
    method ParseBlock(lines: seq<string>, i: nat, ghost size: nat)
      returns (nodes: seq<Node>, next: nat, ok: bool)
      requires i < |lines| && Size(lines) == size
      modifies this
      ensures ok <==> !ScanBlock(lines, i).endless
      ensures next == Next(lines, i)
      ensures Extends(slug, old(headings), headings)
      ensures ok ==> nodes == ScanBlock(lines, i).nodes
      ensures ok ==> Entries(headings[|old(headings)|..]) == Outline(nodes)
      decreases size, 1
    {
      hide KindOf;
      ok := true;
      var kind := KindOf(lines, i);
      if kind == Heading {
        nodes, next := HeadingBlockAt(lines, i);
      } else if kind == Note || kind == Quoted {
        nodes, next, ok := ParseInner(lines, i, size);
      } else {
        nodes, next := LeafBlock(lines, i);
      }
    }

    method HeadingBlockAt(lines: seq<string>, i: nat) returns (nodes: seq<Node>, next: nat)
      requires i < |lines| && KindOf(lines, i) == Heading
      modifies this
      ensures ScanBlock(lines, i) == Scanned(nodes, false) && next == Next(lines, i)
      ensures Extends(slug, old(headings), headings)
      ensures |headings| == |old(headings)| + 1
      ensures var h := headings[|old(headings)|];
        LinePatterns.IsHeading(lines[i], h.level, h.text) && nodes == [HeadingBlock(h.level, h.text)]
      ensures Entries(headings[|old(headings)|..]) == Outline(nodes)
    {
      BlockContents.HeadingKind(lines, i);
      LinePatterns.HeadingExactly(lines[i], HeadingLevel(lines[i]), HeadingText(lines[i]));
      HeadingAt(lines, i);
      var level, text := HeadingLevel(lines[i]), HeadingText(lines[i]);
      AddHeading(level, text);
      nodes, next := [HeadingBlock(level, text)], i + 1;
      OutlineOfOne(nodes[0]);
    }

    /** A block that contains neither headings nor other blocks. */
    method LeafBlock(lines: seq<string>, i: nat) returns (nodes: seq<Node>, next: nat)
      requires i < |lines| && KindOf(lines, i) !in {Heading, Note, Quoted}
      ensures ScanBlock(lines, i) == Scanned(nodes, false) && next == Next(lines, i)
      ensures Outline(nodes) == []
    {
      var kind := KindOf(lines, i);
      match kind
      case Blank => nodes, next := [], i + 1;
      case Break => nodes, next := [HorizontalRule], i + 1;
      case Code =>
        var body, j := Collect(kind, lines, i + 1);
        nodes, next := [CodeBlock(body)], j + 1;
      case Rows =>
        var body, j := Collect(kind, lines, i);
        nodes, next := [TableBlock(body)], j;
      case Bullets =>
        var body, j := Collect(kind, lines, i);
        nodes, next := [ListBlock(body)], j;
      case Plain =>
        var body, j := Collect(kind, lines, i);
        nodes, next := [Paragraph(body)], j;
    }
  }
}
