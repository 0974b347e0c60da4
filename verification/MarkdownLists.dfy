/**
 Rendering of nested lists in the handbook generator: a stack of open lists, closed and opened by
 the indentation of the items.
 */
module MarkupNesting {
  import opened Wrappers

  datatype Tag = Ul | Ol

  datatype Token = OpenList(tag: Tag) | CloseList(tag: Tag) | OpenItem | CloseItem | Text(s: string)

  /** An element that is open at some point of the output. */
  datatype Element = List(tag: Tag) | Item

  /** One token read by a parser that knows which elements are open. */
  function Read(open: seq<Element>, tok: Token): Option<seq<Element>> {
    var n := |open|;
    match tok
    case OpenList(tag) => if n == 0 || open[n - 1] == Item then Some(open + [List(tag)]) else None
    case CloseList(tag) => if n > 0 && open[n - 1] == List(tag) then Some(open[..n - 1]) else None
    case OpenItem => if n > 0 && open[n - 1].List? then Some(open + [Item]) else None
    case CloseItem => if n > 0 && open[n - 1] == Item then Some(open[..n - 1]) else None
    case Text(_) => if n > 0 && open[n - 1] == Item then Some(open) else None
  }

  /** What is open after the tokens, if they nest: items directly in lists, lists in items or outermost. */
  function Open(toks: seq<Token>): Option<seq<Element>> {
    if toks == [] then Some([])
    else
      match Open(toks[..|toks| - 1])
      case None => None
      case Some(open) => Read(open, toks[|toks| - 1])
  }

  /** What a reader sees in order: that a list starts, and its kind, and the contents of an item. */
  datatype Entry = Start(tag: Tag) | Content(s: string)

  /** The lists and the texts of the items, each the first thing in an item of its own. */
  function Entries(toks: seq<Token>): seq<Entry> {
    if toks == [] then []
    else
      var n := |toks| - 1;
      Entries(toks[..n]) +
      if toks[n].OpenList? then [Start(toks[n].tag)]
      else if toks[n].Text? && n > 0 && toks[n - 1].OpenItem? then [Content(toks[n].s)]
      else []
  }

  function CountContents(entries: seq<Entry>): nat {
    if entries == [] then 0
    else CountContents(entries[..|entries| - 1]) + if entries[|entries| - 1].Content? then 1 else 0
  }

  lemma CountOneMore(entries: seq<Entry>, e: Entry)
    ensures CountContents(entries + [e]) == CountContents(entries) + if e.Content? then 1 else 0
  {
    assert (entries + [e])[..|entries|] == entries;
  }

  function CountItems(toks: seq<Token>): nat {
    if toks == [] then 0 else CountItems(toks[..|toks| - 1]) + if toks[|toks| - 1].OpenItem? then 1 else 0
  }

  function CountTexts(toks: seq<Token>): nat {
    if toks == [] then 0 else CountTexts(toks[..|toks| - 1]) + if toks[|toks| - 1].Text? then 1 else 0
  }

  lemma Appended(toks: seq<Token>, tok: Token)
    ensures Open(toks + [tok]) == if Open(toks).None? then None else Read(Open(toks).value, tok)
    ensures CountItems(toks + [tok]) == CountItems(toks) + if tok.OpenItem? then 1 else 0
    ensures CountTexts(toks + [tok]) == CountTexts(toks) + if tok.Text? then 1 else 0
    ensures Entries(toks + [tok]) ==
            Entries(toks) +
            if tok.OpenList? then [Start(tok.tag)]
            else if tok.Text? && |toks| > 0 && toks[|toks| - 1].OpenItem? then [Content(tok.s)]
            else []
  {
    assert (toks + [tok])[..|toks|] == toks;
  }
}

module MarkdownLists {
  import opened Wrappers
  import opened MarkupNesting

  datatype ListItem = ListItem(indent: nat, ordered: bool, content: string)

  /** An open list, with its item open inside. */
  datatype Level = Level(indent: nat, tag: Tag)

  function Elements(stack: seq<Level>): seq<Element> {
    if stack == [] then [] else Elements(stack[..|stack| - 1]) + [List(stack[|stack| - 1].tag), Item]
  }

  ghost predicate Rising(stack: seq<Level>) {
    forall i, j | 0 <= i < j < |stack| :: stack[i].indent < stack[j].indent
  }

  /** What a parser and a reader know about some output. */
  ghost predicate Reads(out: seq<Token>, open: seq<Element>, contents: seq<Entry>) {
    && Open(out) == Some(open)
    && Entries(out) == contents
    && CountItems(out) == CountTexts(out) == CountContents(contents)
  }

  /** The output so far has exactly the lists of the stack open, and holds the given texts. */
  ghost predicate Consistent(out: seq<Token>, stack: seq<Level>, contents: seq<Entry>) {
    && Rising(stack)
    && Reads(out, Elements(stack), contents)
  }

  function TagOf(it: ListItem): (tag: Tag)
    ensures tag == Ol <==> it.ordered
  {
    if it.ordered then Ol else Ul
  }

  /** An item gets a list of its own unless it is indented as far as the item before. */
  predicate OpensList(items: seq<ListItem>, k: nat)
    requires k < |items|
  {
    k == 0 || items[k].indent != items[k - 1].indent
  }

  /** The start of a list of its own, with the lists of `stack` open before the item. */
  function StartOf(it: ListItem, stack: seq<Level>): seq<Entry> {
    if stack != [] && it.indent == stack[|stack| - 1].indent then [] else [Start(TagOf(it))]
  }

  /** The items in order, and before each one with a list of its own the start of a list of its kind. */
  function Expected(items: seq<ListItem>): seq<Entry> {
    if items == [] then []
    else
      var n := |items| - 1;
      Expected(items[..n])
      + (if OpensList(items, n) then [Start(TagOf(items[n]))] else [])
      + [Content(items[n].content)]
  }

  function Closed(out: seq<Token>, tag: Tag): seq<Token> {
    out + [CloseItem] + [CloseList(tag)]
  }

  function Opened(out: seq<Token>, tag: Tag, content: string): seq<Token> {
    out + [OpenList(tag)] + [OpenItem] + [Text(content)]
  }

  function Continued(out: seq<Token>, content: string): seq<Token> {
    out + [CloseItem] + [OpenItem] + [Text(content)]
  }

  lemma ReadsOpenList(out: seq<Token>, open: seq<Element>, contents: seq<Entry>, tag: Tag)
    requires Reads(out, open, contents) && (open == [] || open[|open| - 1] == Item)
    ensures Reads(out + [OpenList(tag)], open + [List(tag)], contents + [Start(tag)])
  {
    Appended(out, OpenList(tag));
    CountOneMore(contents, Start(tag));
  }

  lemma ReadsItem(out: seq<Token>, open: seq<Element>, contents: seq<Entry>, tag: Tag, content: string)
    requires Reads(out, open + [List(tag)], contents)
    ensures Reads(out + [OpenItem] + [Text(content)], open + [List(tag), Item], contents + [Content(content)])
  {
    CountOneMore(contents, Content(content));
    var mid := out + [OpenItem];
    Appended(out, OpenItem);
    assert open + [List(tag)] + [Item] == open + [List(tag), Item];
    assert Reads(out, open + [List(tag)], contents) && Open(mid) == Some(open + [List(tag), Item]);
    Appended(mid, Text(content));
  }

  lemma ReadsCloseItem(out: seq<Token>, open: seq<Element>, contents: seq<Entry>, tag: Tag)
    requires Reads(out, open + [List(tag), Item], contents)
    ensures Reads(out + [CloseItem], open + [List(tag)], contents)
  {
    Appended(out, CloseItem);
    assert (open + [List(tag), Item])[..|open| + 1] == open + [List(tag)];
  }

  lemma ReadsCloseList(out: seq<Token>, open: seq<Element>, contents: seq<Entry>, tag: Tag)
    requires Reads(out, open + [List(tag)], contents)
    ensures Reads(out + [CloseList(tag)], open, contents)
  {
    Appended(out, CloseList(tag));
    assert (open + [List(tag)])[..|open|] == open;
  }

  lemma ClosingTop(out: seq<Token>, stack: seq<Level>, contents: seq<Entry>)
    requires Consistent(out, stack, contents) && stack != []
    ensures Consistent(Closed(out, stack[|stack| - 1].tag), stack[..|stack| - 1], contents)
  {
    var tag, below := stack[|stack| - 1].tag, Elements(stack[..|stack| - 1]);
    ReadsCloseItem(out, below, contents, tag);
    ReadsCloseList(out + [CloseItem], below, contents, tag);
  }

  lemma ElementsEndInItem(stack: seq<Level>)
    ensures stack == [] || (Elements(stack) != [] && Elements(stack)[|Elements(stack)| - 1] == Item)
  {
  }

  lemma OpeningList(out: seq<Token>, stack: seq<Level>, contents: seq<Entry>, level: Level, content: string)
    requires Consistent(out, stack, contents)
    requires stack != [] ==> stack[|stack| - 1].indent < level.indent
    ensures Consistent(Opened(out, level.tag, content), stack + [level],
                       contents + [Start(level.tag)] + [Content(content)])
  {
    ElementsEndInItem(stack);
    ReadsOpenList(out, Elements(stack), contents, level.tag);
    ReadsItem(out + [OpenList(level.tag)], Elements(stack), contents + [Start(level.tag)], level.tag, content);
    assert (stack + [level])[..|stack|] == stack;
  }

  lemma ContinuingList(out: seq<Token>, stack: seq<Level>, contents: seq<Entry>, content: string)
    requires Consistent(out, stack, contents) && stack != []
    ensures Consistent(Continued(out, content), stack, contents + [Content(content)])
  {
    var tag, below := stack[|stack| - 1].tag, Elements(stack[..|stack| - 1]);
    ReadsCloseItem(out, below, contents, tag);
    ReadsItem(out + [CloseItem], below, contents, tag, content);
  }

  /** Closes the lists that are indented at least as far. */
  method CloseTo(indent: nat, out: seq<Token>, stack: seq<Level>, ghost contents: seq<Entry>)
    returns (out': seq<Token>, stack': seq<Level>)
    requires Consistent(out, stack, contents)
    ensures Consistent(out', stack', contents)
    ensures stack' <= stack && (stack' != [] ==> stack'[|stack'| - 1].indent < indent)
    ensures forall i | 0 <= i < |stack| :: i < |stack'| <==> stack[i].indent < indent
  {
    out', stack' := out, stack;
    while stack' != [] && stack'[|stack'| - 1].indent >= indent
      invariant Consistent(out', stack', contents) && stack' <= stack
      invariant forall i | |stack'| <= i < |stack| :: stack[i].indent >= indent
    {
      ClosingTop(out', stack', contents);
      var tag := stack'[|stack'| - 1].tag;
      stack' := stack'[..|stack'| - 1];
      out' := Closed(out', tag);
    }
  }

  /**
   One item: a list inside the open item, the next item of the open list, or, after closing what is
   indented as far, a new list. The test for an equal indentation after closing never succeeds, so
   an item that is indented less than the one before always opens a list of its own.
   */
  method RenderItem(it: ListItem, out: seq<Token>, stack: seq<Level>, ghost contents: seq<Entry>)
    returns (out': seq<Token>, stack': seq<Level>)
    requires Consistent(out, stack, contents)
    ensures Consistent(out', stack', contents + StartOf(it, stack) + [Content(it.content)])
    ensures stack' != [] && stack'[|stack'| - 1].indent == it.indent
    ensures stack == [] || it.indent > stack[|stack| - 1].indent ==>
              stack' == stack + [Level(it.indent, if it.ordered then Ol else Ul)]
    ensures stack != [] && it.indent == stack[|stack| - 1].indent ==> stack' == stack
    ensures stack != [] && it.indent < stack[|stack| - 1].indent ==>
              exists kept | 0 <= kept < |stack| ::
                && stack' == stack[..kept] + [Level(it.indent, if it.ordered then Ol else Ul)]
                && (forall i | 0 <= i < |stack| :: i < kept <==> stack[i].indent < it.indent)
  {
    hide Consistent, Opened, Continued;
    var tag := TagOf(it);
    if stack == [] || it.indent > stack[|stack| - 1].indent {
      OpeningList(out, stack, contents, Level(it.indent, tag), it.content);
      out' := Opened(out, tag, it.content);
      stack' := stack + [Level(it.indent, tag)];
    } else if it.indent == stack[|stack| - 1].indent {
      ContinuingList(out, stack, contents, it.content);
      assert contents + [] == contents;
      out' := Continued(out, it.content);
      stack' := stack;
    } else {
      out', stack' := CloseTo(it.indent, out, stack, contents);
      if stack' != [] && it.indent == stack'[|stack'| - 1].indent {
        assert false;
      } else {
        assert stack' == stack[..|stack'|] && |stack'| < |stack|;
        OpeningList(out', stack', contents, Level(it.indent, tag), it.content);
        out' := Opened(out', tag, it.content);
        stack' := stack' + [Level(it.indent, tag)];
      }
    }
  }

  /**
   Well-nested, fully closed markup with each item in one list element, in input order, and a new list,
   of the kind of its first item, for exactly the items that are not indented as far as the one before.
   */
  method RenderList(items: seq<ListItem>) returns (out: seq<Token>)
    ensures Open(out) == Some([])
    ensures Entries(out) == Expected(items)
    ensures CountItems(out) == CountTexts(out) == |items|
  {
    out := [];
    var stack: seq<Level> := [];
    var k := 0;
    while k < |items|
      invariant 0 <= k <= |items|
      invariant Consistent(out, stack, Expected(items[..k]))
      invariant stack != [] <==> k > 0
      invariant k > 0 ==> stack[|stack| - 1].indent == items[k - 1].indent
    {
      ExpectedOneMore(items, k, stack);
      out, stack := RenderItem(items[k], out, stack, Expected(items[..k]));
      k := k + 1;
    }
    assert items[..k] == items;
    out := CloseAll(out, stack, Expected(items));
    ItemsInOrder(items);
  }

  lemma ExpectedOneMore(items: seq<ListItem>, k: nat, stack: seq<Level>)
    requires k < |items| && (stack != [] <==> k > 0)
    requires k > 0 ==> stack[|stack| - 1].indent == items[k - 1].indent
    ensures Expected(items[..k + 1]) ==
            Expected(items[..k]) + StartOf(items[k], stack) + [Content(items[k].content)]
  {
    assert items[..k + 1][..k] == items[..k];
  }

  /** The same for one item: where its list starts, and of which kind. */
  lemma ExpectedExactly(items: seq<ListItem>, k: nat)
    requires k < |items|
    ensures Expected(items[..k + 1]) ==
            Expected(items[..k])
            + (if k > 0 && items[k].indent == items[k - 1].indent then []
               else if items[k].ordered then [Start(Ol)] else [Start(Ul)])
            + [Content(items[k].content)]
  {
    assert items[..k + 1][..k] == items[..k];
  }

  method CloseAll(out: seq<Token>, stack: seq<Level>, ghost contents: seq<Entry>) returns (out': seq<Token>)
    requires Consistent(out, stack, contents)
    ensures Reads(out', [], contents)
  {
    out' := out;
    var left := stack;
    while left != []
      invariant Consistent(out', left, contents)
    {
      ClosingTop(out', left, contents);
      var tag := left[|left| - 1].tag;
      left := left[..|left| - 1];
      out' := Closed(out', tag);
    }
  }

  /** The contents of the items that a reader sees. */
  function Contents(entries: seq<Entry>): seq<string> {
    if entries == [] then []
    else
      var n := |entries| - 1;
      Contents(entries[..n]) + if entries[n].Content? then [entries[n].s] else []
  }

  lemma ContentsOneMore(entries: seq<Entry>, e: Entry)
    ensures Contents(entries + [e]) == Contents(entries) + if e.Content? then [e.s] else []
  {
    assert (entries + [e])[..|entries|] == entries;
  }

  lemma {:induction false} ItemsInOrder(items: seq<ListItem>)
    ensures CountContents(Expected(items)) == |Contents(Expected(items))| == |items|
    ensures forall i | 0 <= i < |items| :: Contents(Expected(items))[i] == items[i].content
  {
    if items != [] {
      var n := |items| - 1;
      ItemsInOrder(items[..n]);
      var before := Expected(items[..n]);
      var start := if OpensList(items, n) then [Start(TagOf(items[n]))] else [];
      CountOneMore(before, Start(TagOf(items[n])));
      ContentsOneMore(before, Start(TagOf(items[n])));
      assert before + [] == before;
      CountOneMore(before + start, Content(items[n].content));
      ContentsOneMore(before + start, Content(items[n].content));
    }
  }
}
