/**
 Reading feedback blocks: `Blocks` says which texts lie between the tags of a reply and proves
 that reading and writing blocks are inverse; `FeedbackParser` is the scan with its moving position.
 */
module Blocks {
  import opened Basics
  import opened Wrappers

  /** The pair of tags around a block. */
  datatype Tags = Tags(open: string, close: string) {
    /** A tag cannot overlap a copy of itself: its first character does not come again. */
    ghost predicate Plain() {
      IsPlain(open) && IsPlain(close)
    }
  }

  ghost predicate IsPlain(tag: string) {
    |tag| > 0 && forall k | 0 < k < |tag| :: tag[k] != tag[0]
  }

  const FEEDBACK := Tags("[FEEDBACK]", "[/FEEDBACK]")

  lemma FeedbackTagsArePlain()
    ensures FEEDBACK.Plain()
  {
  }

  /** The position of the first occurrence of `tag` at or after `from`. */
  function Find(s: string, tag: string, from: nat): (r: Option<nat>)
    ensures r.Some? ==> from <= r.value && r.value + |tag| <= |s|
    decreases |s| - from
  {
    if from + |tag| > |s| then None
    else if OccursAt(s, tag, from) then Some(from)
    else Find(s, tag, from + 1)
  }

  lemma {:induction false} FindsFirst(s: string, tag: string, from: nat)
    ensures Find(s, tag, from).Some? ==>
              && OccursAt(s, tag, Find(s, tag, from).value)
              && forall i | from <= i < Find(s, tag, from).value :: !OccursAt(s, tag, i)
    ensures Find(s, tag, from).None? ==> forall i | from <= i :: !OccursAt(s, tag, i)
    decreases |s| - from
  {
    if from + |tag| <= |s| && !OccursAt(s, tag, from) {
      FindsFirst(s, tag, from + 1);
    }
  }

  /** The texts between the tags from a position on; an open tag that is never closed ends the scan. */
  function Bodies(t: Tags, s: string, from: nat): seq<string>
    decreases |s| - from
  {
    var start := Find(s, t.open, from);
    if start.None? || t.open == "" then []
    else
      var absStart := start.value + |t.open|;
      var end := Find(s, t.close, absStart);
      if end.None? then []
      else [s[absStart..end.value]] + Bodies(t, s, end.value + |t.close|)
  }

  /** A filler and the body of the block that follows it. */
  datatype Block = Block(filler: string, body: string)

  function Written(t: Tags, b: Block, rest: string): string {
    b.filler + (t.open + (b.body + (t.close + rest)))
  }

  function Printed(t: Tags, blocks: seq<Block>, tail: string): string {
    if blocks == [] then tail else Written(t, blocks[0], Printed(t, blocks[1..], tail))
  }

  /** No filler contains the open tag, no body the close tag. */
  ghost predicate CleanBlock(t: Tags, b: Block) {
    !Contains(b.filler, t.open) && !Contains(b.body, t.close)
  }

  ghost predicate Clean(t: Tags, blocks: seq<Block>) {
    forall i | 0 <= i < |blocks| :: CleanBlock(t, blocks[i])
  }

  /** A tail without a complete block: no close tag comes after the first open tag. */
  ghost predicate Incomplete(t: Tags, tail: string) {
    forall i: nat, j: nat | OccursAt(tail, t.open, i) && i + |t.open| <= j :: !OccursAt(tail, t.close, j)
  }

  function BodiesOf(blocks: seq<Block>): seq<string> {
    if blocks == [] then [] else [blocks[0].body] + BodiesOf(blocks[1..])
  }

  /** What is at `from` when a concatenation starts there. */
  lemma Head(s: string, from: nat, x: string, y: string)
    requires from <= |s| && s[from..] == x + y
    ensures from + |x| <= |s| && s[from..from + |x|] == x && s[from + |x|..] == y
  {
    assert s[from..from + |x|] == s[from..][..|x|];
    assert s[from + |x|..] == s[from..][|x|..];
  }

  lemma OccursInPart(s: string, from: nat, to: nat, tag: string, i: nat)
    requires from <= i && i + |tag| <= to <= |s|
    ensures OccursAt(s, tag, i) <==> OccursAt(s[from..to], tag, i - from)
  {
    SliceOfSlice(s, from, to, i - from, i - from + |tag|);
  }

  lemma SliceOfSlice(s: string, from: nat, to: nat, i: nat, j: nat)
    requires from <= to <= |s| && i <= j <= to - from
    ensures s[from..to][i..j] == s[from + i..from + j]
  {
    var x, y := s[from..to][i..j], s[from + i..from + j];
    forall k | 0 <= k < |x| ensures x[k] == y[k] {
      assert s[from..to][i + k] == s[from + i + k];
    }
  }

  /** A plain tag is found where it is written, and not earlier. */
  lemma FindAfter(s: string, from: nat, at: nat, text: string, tag: string)
    requires from <= at && IsPlain(tag) && OccursAt(s, tag, at)
    requires s[from..at] == text && !Contains(text, tag)
    ensures Find(s, tag, from) == Some(at)
  {
    forall i | from <= i < at ensures !OccursAt(s, tag, i) {
      if i + |tag| <= at {
        OccursInPart(s, from, at, tag, i);
        assert !OccursAt(text, tag, i - from);
      } else {
        assert s[at..at + |tag|][0] == s[at];
        if i + |tag| <= |s| {
          assert s[i..i + |tag|][at - i] == s[at];
        }
      }
    }
    FindsFirst(s, tag, from);
  }

  /** The scan that has found one block goes on behind it. */
  lemma BodiesStep(t: Tags, s: string, from: nat, start: nat, end: nat)
    requires t.open != ""
    requires Find(s, t.open, from) == Some(start) && Find(s, t.close, start + |t.open|) == Some(end)
    ensures Bodies(t, s, from) == [s[start + |t.open|..end]] + Bodies(t, s, end + |t.close|)
  {
    hide Find;
  }

  /** The scan that finds no further block is over. */
  lemma BodiesEnd(t: Tags, s: string, from: nat)
    requires t.open != ""
    requires var start := Find(s, t.open, from); start.None? || Find(s, t.close, start.value + |t.open|).None?
    ensures Bodies(t, s, from) == []
  {
    hide Find;
  }

  /** Where the parts of a written block are. */
  lemma WrittenParts(t: Tags, s: string, from: nat, b: Block, rest: string) returns (p: nat, q: nat)
    requires from <= |s| && s[from..] == Written(t, b, rest)
    ensures p == from + |b.filler| && q == p + |t.open| + |b.body|
    ensures q + |t.close| <= |s| && s[q + |t.close|..] == rest
    ensures s[from..p] == b.filler && OccursAt(s, t.open, p)
    ensures s[p + |t.open|..q] == b.body && OccursAt(s, t.close, q)
  {
    p, q := from + |b.filler|, from + |b.filler| + |t.open| + |b.body|;
    var r3 := t.close + rest;
    var r2 := b.body + r3;
    var r1 := t.open + r2;
    Head(s, from, b.filler, r1);
    Head(s, p, t.open, r2);
    Head(s, p + |t.open|, b.body, r3);
    Head(s, q, t.close, rest);
  }

  lemma BlockIsRead(t: Tags, s: string, from: nat, p: nat, q: nat, b: Block)
    requires t.Plain() && CleanBlock(t, b)
    requires from <= p && p + |t.open| <= q && q + |t.close| <= |s|
    requires s[from..p] == b.filler && OccursAt(s, t.open, p)
    requires s[p + |t.open|..q] == b.body && OccursAt(s, t.close, q)
    ensures Bodies(t, s, from) == [b.body] + Bodies(t, s, q + |t.close|)
  {
    FindAfter(s, from, p, b.filler, t.open);
    FindAfter(s, p + |t.open|, q, b.body, t.close);
    BodiesStep(t, s, from, p, q);
  }

  lemma WrittenBlockIsRead(t: Tags, s: string, from: nat, b: Block, rest: string) returns (next: nat)
    requires t.Plain() && CleanBlock(t, b)
    requires from <= |s| && s[from..] == Written(t, b, rest)
    ensures from < next <= |s| && s[next..] == rest
    ensures Bodies(t, s, from) == [b.body] + Bodies(t, s, next)
  {
    hide Bodies, Written, OccursAt;
    var p, q := WrittenParts(t, s, from, b, rest);
    next := q + |t.close|;
    BlockIsRead(t, s, from, p, q, b);
  }

  lemma TailIsNotRead(t: Tags, s: string, from: nat)
    requires t.Plain() && from <= |s| && Incomplete(t, s[from..])
    ensures Bodies(t, s, from) == []
  {
    var start := Find(s, t.open, from);
    FindsFirst(s, t.open, from);
    assert s[from..|s|] == s[from..];
    if start.Some? {
      OccursInPart(s, from, |s|, t.open, start.value);
      var absStart := start.value + |t.open|;
      FindsFirst(s, t.close, absStart);
      forall j | absStart <= j ensures !OccursAt(s, t.close, j) {
        if j + |t.close| <= |s| {
          OccursInPart(s, from, |s|, t.close, j);
        }
      }
    }
  }

  /** Reading what was written gives back the bodies, in order. */
  lemma {:induction false} PrintedIsRead(t: Tags, s: string, from: nat, blocks: seq<Block>, tail: string)
    requires t.Plain() && Clean(t, blocks) && Incomplete(t, tail)
    requires from <= |s| && s[from..] == Printed(t, blocks, tail)
    ensures Bodies(t, s, from) == BodiesOf(blocks)
    decreases |blocks|
  {
    if blocks == [] {
      TailIsNotRead(t, s, from);
    } else {
      var next := WrittenBlockIsRead(t, s, from, blocks[0], Printed(t, blocks[1..], tail));
      PrintedIsRead(t, s, next, blocks[1..], tail);
    }
  }

  /** And every text is written that way, so that nothing else is ever read. */
  lemma {:induction false} EveryTextIsPrinted(t: Tags, s: string) returns (blocks: seq<Block>, tail: string)
    requires t.Plain()
    ensures Clean(t, blocks) && Incomplete(t, tail)
    ensures s == Printed(t, blocks, tail)
    decreases |s|
  {
    var start := Find(s, t.open, 0);
    if start.None? || Find(s, t.close, start.value + |t.open|).None? {
      NoBlockLeft(t, s);
      blocks, tail := [], s;
    } else {
      var b, rest := FirstBlock(t, s);
      var more, t' := EveryTextIsPrinted(t, rest);
      blocks, tail := [b] + more, t';
      assert blocks[1..] == more;
    }
  }

  lemma NoBlockLeft(t: Tags, s: string)
    requires var start := Find(s, t.open, 0);
      start.Some? ==> Find(s, t.close, start.value + |t.open|).None?
    ensures Incomplete(t, s)
  {
    hide Find;
    FindsFirst(s, t.open, 0);
    var start := Find(s, t.open, 0);
    if start.Some? {
      FindsFirst(s, t.close, start.value + |t.open|);
    }
  }

  lemma FirstBlock(t: Tags, s: string) returns (b: Block, rest: string)
    requires t.Plain() && Find(s, t.open, 0).Some?
    requires Find(s, t.close, Find(s, t.open, 0).value + |t.open|).Some?
    ensures CleanBlock(t, b) && s == Written(t, b, rest) && |rest| < |s|
  {
    hide Find;
    var i := Find(s, t.open, 0).value;
    var j := Find(s, t.close, i + |t.open|).value;
    FindsFirst(s, t.open, 0);
    FindsFirst(s, t.close, i + |t.open|);
    PartIsClean(s, t.open, 0, i);
    PartIsClean(s, t.close, i + |t.open|, j);
    CutOut(s, t, i, j);
    b, rest := Block(s[0..i], s[i + |t.open|..j]), s[j + |t.close|..];
  }

  lemma Cut(s: string, from: nat, to: nat)
    requires from <= to <= |s|
    ensures s[from..] == s[from..to] + s[to..]
  {
  }

  lemma CutOut(s: string, t: Tags, i: nat, j: nat)
    requires OccursAt(s, t.open, i) && OccursAt(s, t.close, j) && i + |t.open| <= j
    ensures s == Written(t, Block(s[0..i], s[i + |t.open|..j]), s[j + |t.close|..])
  {
    assert s[0..] == s;
    Cut(s, 0, i);
    Cut(s, i, i + |t.open|);
    Cut(s, i + |t.open|, j);
    Cut(s, j, j + |t.close|);
  }

  lemma PartIsClean(s: string, tag: string, from: nat, to: nat)
    requires from <= to <= |s| && |tag| > 0
    requires forall x | from <= x < to :: !OccursAt(s, tag, x)
    ensures !Contains(s[from..to], tag)
  {
    forall x: nat ensures !OccursAt(s[from..to], tag, x) {
      if x + |tag| <= to - from {
        OccursInPart(s, from, to, tag, from + x);
      }
    }
  }

  /** The decodable bodies, in order. */
  function Decoded<T>(decode: string -> Option<T>, bodies: seq<string>): seq<T> {
    if bodies == [] then []
    else (if decode(bodies[0]).Some? then [decode(bodies[0]).value] else []) + Decoded(decode, bodies[1..])
  }
}

module FeedbackParser {
  import opened Basics
  import opened Wrappers
  import opened Blocks

  /** What one block adds to the results. */
  function Gain<T>(decode: string -> Option<T>, block: string): seq<T> {
    if decode(block).Some? then [decode(block).value] else []
  }

  lemma DecodedStep<T>(decode: string -> Option<T>, results: seq<T>, block: string, unread: seq<string>)
    ensures results + Decoded(decode, [block] + unread) == (results + Gain(decode, block)) + Decoded(decode, unread)
  {
    assert ([block] + unread)[1..] == unread;
    Associative(results, Gain(decode, block), Decoded(decode, unread));
  }

  /** `decode` trims a block and reads it as an entry. */
  method ParseFeedback<T>(text: string, decode: string -> Option<T>) returns (results: seq<T>)
    ensures results == Decoded(decode, Bodies(Tags("[FEEDBACK]", "[/FEEDBACK]"), text, 0))
  {
    hide Bodies, Find;
    var tags := FEEDBACK;
    results := [];
    var searchFrom: nat := 0;
    ghost var unread, goal := Bodies(tags, text, 0), Decoded(decode, Bodies(tags, text, 0));
    while true
      invariant unread == Bodies(tags, text, searchFrom)
      invariant results + Decoded(decode, unread) == goal
      decreases |text| - searchFrom
    {
      ghost var scanned := searchFrom;
      var start := Find(text, tags.open, searchFrom);
      if start.None? {
        break;
      }
      var absStart := start.value + |tags.open|;
      var end := Find(text, tags.close, absStart);
      if end.None? {
        break;
      }
      var block := text[absStart..end.value];
      searchFrom := end.value + |tags.close|;
      BodiesStep(tags, text, scanned, start.value, end.value);
      unread := Bodies(tags, text, searchFrom);
      DecodedStep(decode, results, block, unread);
      var entry := decode(block);
      results := results + if entry.Some? then [entry.value] else [];
    }
    BodiesEnd(tags, text, searchFrom);
    assert unread == [];
  }

  /** The entries of a reply are the decodable bodies between its tags, in order. */
  lemma ReplyRoundTrip<T>(decode: string -> Option<T>, blocks: seq<Block>, tail: string)
    requires Clean(FEEDBACK, blocks) && Incomplete(FEEDBACK, tail)
    ensures FEEDBACK == Tags("[FEEDBACK]", "[/FEEDBACK]")
    ensures Decoded(decode, Bodies(FEEDBACK, Printed(FEEDBACK, blocks, tail), 0)) == Decoded(decode, BodiesOf(blocks))
  {
    FeedbackTagsArePlain();
    var text := Printed(FEEDBACK, blocks, tail);
    assert text[0..] == text;
    PrintedIsRead(FEEDBACK, text, 0, blocks, tail);
  }

  lemma {:induction false} DecodedConcat<T>(decode: string -> Option<T>, before: seq<string>, after: seq<string>)
    ensures Decoded(decode, before + after) == Decoded(decode, before) + Decoded(decode, after)
  {
    if before == [] {
      assert before + after == after;
    } else {
      DecodedConcat(decode, before[1..], after);
      assert (before + after)[1..] == before[1..] + after;
      Associative(Gain(decode, before[0]), Decoded(decode, before[1..]), Decoded(decode, after));
    }
  }

  /** Decoding goes body by body, in order, and leaves out what does not decode. */
  lemma DecodedInOrder<T>(decode: string -> Option<T>, before: seq<string>, body: string, after: seq<string>)
    ensures Decoded(decode, before + [body] + after) ==
            Decoded(decode, before)
            + (match decode(body) case Some(entry) => [entry] case None => [])
            + Decoded(decode, after)
  {
    DecodedConcat(decode, before + [body], after);
    DecodedConcat(decode, before, [body]);
    assert [body][1..] == [];
  }

  /** Every reply is such a text, so nothing else is ever returned. */
  lemma EveryReplyIsPrinted(text: string) returns (blocks: seq<Block>, tail: string)
    ensures Clean(FEEDBACK, blocks) && Incomplete(FEEDBACK, tail)
    ensures text == Printed(FEEDBACK, blocks, tail)
  {
    FeedbackTagsArePlain();
    blocks, tail := EveryTextIsPrinted(FEEDBACK, text);
  }
}
