/**
 The conversation relay: runner events become realtime frames, with streamed text coalesced to
 at most one frame per flush interval. `RelayProtocol` is the state machine and what every run of
 it guarantees; `ConvoRelay` is the loop that updates pending text, speaker and flush time.
 */
module RelayProtocol {
  import opened Basics
  import opened Wrappers

  /** Milliseconds between two text frames of one uninterrupted stream. */
  const FLUSH_INTERVAL := 100

  datatype Speaker = Speaker(agent: string, turn: nat)

  datatype Event =
    | TextChunk(who: Speaker, text: string)
    | ToolStart(who: Speaker, tool: string)
    | ToolResult(who: Speaker)
    | OtherChat(who: Speaker)
    | TurnStart(who: Speaker)
    | TurnEnd(who: Speaker)
    | Error
    | Done(totalTurns: nat)

  datatype Frame =
    | TextFrame(who: Speaker, text: string)
    | ToolFrame(who: Speaker, tool: Option<string>)
    | StartFrame(who: Speaker)
    | EndFrame(who: Speaker)
    | DoneFrame(totalTurns: nat)

  /** The frame of an event that is not text, if it has one. */
  function Marker(ev: Event): Option<Frame> {
    match ev
    case TextChunk(_, _) => None
    case ToolStart(who, tool) => Some(ToolFrame(who, Some(tool)))
    case ToolResult(who) => Some(ToolFrame(who, None))
    case OtherChat(_) => None
    case TurnStart(who) => Some(StartFrame(who))
    case TurnEnd(who) => Some(EndFrame(who))
    case Error => None
    case Done(n) => Some(DoneFrame(n))
  }

  /**
   Why the loop woke up. `Received` carries the clock readings of one iteration in program order:
   the first flush, the elapsed-time test after a chunk, and the flush that test may trigger.
   */
  datatype Wake =
    | Received(ev: Event, flushAt: nat, testAt: nat, reflushAt: nat)
    | TimedOut(at: nat)
  {
    function Begins(): nat { if TimedOut? then at else flushAt }
    function Ends(): nat { if TimedOut? then at else reflushAt }
  }

  datatype State = State(pending: string, speaker: Speaker, lastFlush: nat, sent: seq<Frame>)

  function Initial(start: nat): State {
    State("", Speaker("", 0), start, [])
  }

  function Flushed(s: State, now: nat): State {
    s.(pending := "", lastFlush := now,
       sent := if s.pending == "" then s.sent else s.sent + [TextFrame(s.speaker, s.pending)])
  }

  /** The state once `who` has the floor; a change of speaker sends what is pending. */
  function Turned(s: State, who: Speaker, now: nat): State {
    if s.speaker != who then Flushed(s, now).(speaker := who) else s
  }

  function Pushed(s: State, text: string): State {
    s.(pending := s.pending + text)
  }

  function Step(s: State, w: Wake): State {
    match w
    case TimedOut(at) => Flushed(s, at)
    case Received(TextChunk(who, text), flushAt, testAt, reflushAt) =>
      var s' := Pushed(Turned(s, who, flushAt), text);
      if testAt - s'.lastFlush >= FLUSH_INTERVAL then Flushed(s', reflushAt) else s'
    case Received(ev, flushAt, _, _) =>
      if Marker(ev).None? then s
      else
        var s1 := Flushed(s, flushAt);
        s1.(sent := s1.sent + [Marker(ev).value])
  }

  function Run(start: nat, wakes: seq<Wake>): State {
    if wakes == [] then Initial(start) else Step(Run(start, wakes[..|wakes| - 1]), wakes[|wakes| - 1])
  }

  /** The run ends when the sender is gone: what is pending is flushed. */
  function Closed(start: nat, wakes: seq<Wake>, now: nat): State {
    Flushed(Run(start, wakes), now)
  }

  // The meaning of a frame sequence: every character with its speaker, and every marker.

  datatype Token = Char(who: Speaker, c: char) | Mark(frame: Frame)

  function Chars(who: Speaker, text: string): seq<Token> {
    seq(|text|, i requires 0 <= i < |text| => Char(who, text[i]))
  }

  function Tokens(f: Frame): seq<Token> {
    if f.TextFrame? then Chars(f.who, f.text) else [Mark(f)]
  }

  function Flatten(frames: seq<Frame>): seq<Token> {
    if frames == [] then [] else Flatten(frames[..|frames| - 1]) + Tokens(frames[|frames| - 1])
  }

  /** The relay without coalescing: one frame per event that has one. */
  function FrameOf(ev: Event): seq<Frame> {
    if ev.TextChunk? then [TextFrame(ev.who, ev.text)]
    else if Marker(ev).Some? then [Marker(ev).value]
    else []
  }

  function Uncoalesced(wakes: seq<Wake>): seq<Frame> {
    if wakes == [] then []
    else
      var w := wakes[|wakes| - 1];
      Uncoalesced(wakes[..|wakes| - 1]) + if w.Received? then FrameOf(w.ev) else []
  }

  lemma FlattenAppend(frames: seq<Frame>, f: Frame)
    ensures Flatten(frames + [f]) == Flatten(frames) + Tokens(f)
  {
    assert (frames + [f])[..|frames|] == frames;
  }

  lemma CharsAppend(who: Speaker, a: string, b: string)
    ensures Chars(who, a + b) == Chars(who, a) + Chars(who, b)
  {
  }

  /** What a subscriber will have read once the pending text is out. */
  function Meaning(s: State): seq<Token> {
    Flatten(s.sent) + Chars(s.speaker, s.pending)
  }

  lemma FlushKeepsMeaning(s: State, now: nat)
    ensures Meaning(Flushed(s, now)) == Meaning(s) == Flatten(Flushed(s, now).sent)
  {
    FlattenAppend(s.sent, TextFrame(s.speaker, s.pending));
  }

  lemma FlattenOne(f: Frame)
    ensures Flatten([f]) == Tokens(f)
  {
    FlattenAppend([], f);
  }

  lemma PushMeaning(s: State, text: string)
    ensures Meaning(Pushed(s, text)) == Meaning(s) + Chars(s.speaker, text)
  {
    CharsAppend(s.speaker, s.pending, text);
    Associative(Flatten(s.sent), Chars(s.speaker, s.pending), Chars(s.speaker, text));
  }

  lemma TurnKeepsMeaning(s: State, who: Speaker, now: nat)
    ensures Meaning(Turned(s, who, now)) == Meaning(s)
  {
    FlushKeepsMeaning(s, now);
  }

  lemma MarkerMeaning(s: State, f: Frame)
    requires s.pending == ""
    ensures Meaning(s.(sent := s.sent + [f])) == Meaning(s) + Flatten([f])
  {
    FlattenAppend(s.sent, f);
    FlattenOne(f);
  }

  /** One iteration adds to the meaning exactly what the uncoalesced relay sends. */
  lemma StepMeaning(s: State, w: Wake)
    ensures Meaning(Step(s, w)) == Meaning(s) + if w.Received? then Flatten(FrameOf(w.ev)) else []
  {
    if w.TimedOut? {
      FlushKeepsMeaning(s, w.at);
    } else if w.ev.TextChunk? {
      TextStepMeaning(s, w);
    } else if Marker(w.ev).Some? {
      FlushKeepsMeaning(s, w.flushAt);
      MarkerMeaning(Flushed(s, w.flushAt), Marker(w.ev).value);
    }
  }

  lemma TextStepMeaning(s: State, w: Wake)
    requires w.Received? && w.ev.TextChunk?
    ensures Meaning(Step(s, w)) == Meaning(s) + Flatten(FrameOf(w.ev))
  {
    var who, text := w.ev.who, w.ev.text;
    FlattenOne(TextFrame(who, text));
    TurnKeepsMeaning(s, who, w.flushAt);
    var s1 := Turned(s, who, w.flushAt);
    PushMeaning(s1, text);
    FlushKeepsMeaning(Pushed(s1, text), w.reflushAt);
  }

  lemma {:induction false} FlattenConcat(f: seq<Frame>, g: seq<Frame>)
    ensures Flatten(f + g) == Flatten(f) + Flatten(g)
  {
    if g == [] {
      assert f + g == f;
    } else {
      var rest, last := g[..|g| - 1], g[|g| - 1];
      FlattenConcat(f, rest);
      assert f + g == (f + rest) + [last];
      FlattenAppend(f + rest, last);
      Associative(Flatten(f), Flatten(rest), Tokens(last));
    }
  }

  /** At every point of every run, sent frames plus pending text mean what the input means. */
  lemma {:induction false} RunRefinesUncoalesced(start: nat, wakes: seq<Wake>)
    ensures Meaning(Run(start, wakes)) == Flatten(Uncoalesced(wakes))
  {
    if wakes != [] {
      var rest, w := wakes[..|wakes| - 1], wakes[|wakes| - 1];
      RunRefinesUncoalesced(start, rest);
      StepMeaning(Run(start, rest), w);
      FlattenConcat(Uncoalesced(rest), if w.Received? then FrameOf(w.ev) else []);
    }
  }

  /** And a closed run has sent everything: same characters, speakers and markers, same order. */
  lemma ClosedRunSendsEverything(start: nat, wakes: seq<Wake>, now: nat)
    ensures Closed(start, wakes, now).pending == ""
    ensures Flatten(Closed(start, wakes, now).sent) == Flatten(Uncoalesced(wakes))
  {
    RunRefinesUncoalesced(start, wakes);
    FlushKeepsMeaning(Run(start, wakes), now);
  }

  // What a subscriber is told, kind by kind, against what happened.

  /** What `f` finds in the frames, in order. */
  function Picked<T>(frames: seq<Frame>, f: Frame -> Option<T>): seq<T> {
    if frames == [] then []
    else
      var n := |frames| - 1;
      Picked(frames[..n], f) + if f(frames[n]).Some? then [f(frames[n]).value] else []
  }

  /** What `g` finds in the events received, in order. */
  function Happened<T>(wakes: seq<Wake>, g: Event -> Option<T>): seq<T> {
    if wakes == [] then []
    else
      var n := |wakes| - 1;
      Happened(wakes[..n], g) +
      if wakes[n].Received? && g(wakes[n].ev).Some? then [g(wakes[n].ev).value] else []
  }

  function StartTold(f: Frame): Option<Speaker> { if f.StartFrame? then Some(f.who) else None }
  function StartOf(ev: Event): Option<Speaker> { if ev.TurnStart? then Some(ev.who) else None }

  function EndTold(f: Frame): Option<Speaker> { if f.EndFrame? then Some(f.who) else None }
  function EndOf(ev: Event): Option<Speaker> { if ev.TurnEnd? then Some(ev.who) else None }

  function CallTold(f: Frame): Option<(Speaker, string)> {
    if f.ToolFrame? && f.tool.Some? then Some((f.who, f.tool.value)) else None
  }
  function CallOf(ev: Event): Option<(Speaker, string)> {
    if ev.ToolStart? then Some((ev.who, ev.tool)) else None
  }

  function ReturnTold(f: Frame): Option<Speaker> { if f.ToolFrame? && f.tool.None? then Some(f.who) else None }
  function ReturnOf(ev: Event): Option<Speaker> { if ev.ToolResult? then Some(ev.who) else None }

  function DoneTold(f: Frame): Option<nat> { if f.DoneFrame? then Some(f.totalTurns) else None }
  function DoneOf(ev: Event): Option<nat> { if ev.Done? then Some(ev.totalTurns) else None }

  /** The characters of text frames and of text chunks, each with its speaker. */
  function TextTold(frames: seq<Frame>): seq<(Speaker, char)> {
    if frames == [] then []
    else
      var n := |frames| - 1;
      TextTold(frames[..n]) + if frames[n].TextFrame? then Said(frames[n].who, frames[n].text) else []
  }

  function TextOf(wakes: seq<Wake>): seq<(Speaker, char)> {
    if wakes == [] then []
    else
      var n := |wakes| - 1;
      TextOf(wakes[..n]) +
      if wakes[n].Received? && wakes[n].ev.TextChunk? then Said(wakes[n].ev.who, wakes[n].ev.text) else []
  }

  function Said(who: Speaker, text: string): seq<(Speaker, char)> {
    seq(|text|, i requires 0 <= i < |text| => (who, text[i]))
  }

  /** Turns that start and end, tools that are called and return, the end, and every character said. */
  ghost predicate Tells(frames: seq<Frame>, wakes: seq<Wake>) {
    && Picked(frames, StartTold) == Happened(wakes, StartOf)
    && Picked(frames, EndTold) == Happened(wakes, EndOf)
    && Picked(frames, CallTold) == Happened(wakes, CallOf)
    && Picked(frames, ReturnTold) == Happened(wakes, ReturnOf)
    && Picked(frames, DoneTold) == Happened(wakes, DoneOf)
    && TextTold(frames) == TextOf(wakes)
  }

  lemma PickedOneMore<T>(frames: seq<Frame>, g: Frame, f: Frame -> Option<T>)
    ensures Picked(frames + [g], f) == Picked(frames, f) + if f(g).Some? then [f(g).value] else []
  {
    assert (frames + [g])[..|frames|] == frames;
  }

  lemma FlushPicks<T>(s: State, now: nat, f: Frame -> Option<T>)
    requires forall who, text :: f(TextFrame(who, text)).None?
    ensures Picked(Flushed(s, now).sent, f) == Picked(s.sent, f)
  {
    PickedOneMore(s.sent, TextFrame(s.speaker, s.pending), f);
  }

  /** A step adds the frame of a lifecycle or tool event, and otherwise only text. */
  lemma StepPicks<T>(s: State, w: Wake, f: Frame -> Option<T>)
    requires forall who, text :: f(TextFrame(who, text)).None?
    ensures Picked(Step(s, w).sent, f) ==
            Picked(s.sent, f) +
            if w.Received? && Marker(w.ev).Some? && f(Marker(w.ev).value).Some? then [f(Marker(w.ev).value).value]
            else []
  {
    hide Picked;
    FlushPicks(s, w.Begins(), f);
    if w.Received? && w.ev.TextChunk? {
      FlushPicks(Pushed(Turned(s, w.ev.who, w.flushAt), w.ev.text), w.reflushAt, f);
    } else if w.Received? && Marker(w.ev).Some? {
      PickedOneMore(Flushed(s, w.flushAt).sent, Marker(w.ev).value, f);
    }
  }

  lemma {:induction false} RunPicks<T>(start: nat, wakes: seq<Wake>, f: Frame -> Option<T>, g: Event -> Option<T>)
    requires forall who, text :: f(TextFrame(who, text)).None?
    requires forall ev :: g(ev) == if Marker(ev).Some? then f(Marker(ev).value) else None
    ensures Picked(Run(start, wakes).sent, f) == Happened(wakes, g)
  {
    if wakes != [] {
      var n := |wakes| - 1;
      RunPicks(start, wakes[..n], f, g);
      StepPicks(Run(start, wakes[..n]), wakes[n], f);
    }
  }

  lemma ClosedPicks<T>(start: nat, wakes: seq<Wake>, now: nat, f: Frame -> Option<T>, g: Event -> Option<T>)
    requires forall who, text :: f(TextFrame(who, text)).None?
    requires forall ev :: g(ev) == if Marker(ev).Some? then f(Marker(ev).value) else None
    ensures Picked(Closed(start, wakes, now).sent, f) == Happened(wakes, g)
  {
    RunPicks(start, wakes, f, g);
    FlushPicks(Run(start, wakes), now, f);
  }

  lemma TextToldOneMore(frames: seq<Frame>, f: Frame)
    ensures TextTold(frames + [f]) == TextTold(frames) + if f.TextFrame? then Said(f.who, f.text) else []
  {
    assert (frames + [f])[..|frames|] == frames;
  }

  /** What has been said: sent, or pending. */
  function SaidSoFar(s: State): seq<(Speaker, char)> {
    TextTold(s.sent) + Said(s.speaker, s.pending)
  }

  lemma FlushKeepsSaid(s: State, now: nat)
    ensures SaidSoFar(Flushed(s, now)) == SaidSoFar(s) == TextTold(Flushed(s, now).sent)
  {
    TextToldOneMore(s.sent, TextFrame(s.speaker, s.pending));
  }

  lemma PushSays(s: State, text: string)
    ensures SaidSoFar(Pushed(s, text)) == SaidSoFar(s) + Said(s.speaker, text)
  {
    assert Said(s.speaker, s.pending + text) == Said(s.speaker, s.pending) + Said(s.speaker, text);
  }

  lemma StepSays(s: State, w: Wake)
    ensures SaidSoFar(Step(s, w)) ==
            SaidSoFar(s) + if w.Received? && w.ev.TextChunk? then Said(w.ev.who, w.ev.text) else []
  {
    hide Said, TextTold;
    FlushKeepsSaid(s, w.Begins());
    if w.Received? && w.ev.TextChunk? {
      var s1 := Turned(s, w.ev.who, w.flushAt);
      NothingSaid(w.ev.who);
      PushSays(s1, w.ev.text);
      FlushKeepsSaid(Pushed(s1, w.ev.text), w.reflushAt);
    } else if w.Received? && Marker(w.ev).Some? {
      TextToldOneMore(Flushed(s, w.flushAt).sent, Marker(w.ev).value);
    }
  }

  lemma NothingSaid(who: Speaker)
    ensures Said(who, "") == []
  {
  }

  lemma {:induction false} RunSays(start: nat, wakes: seq<Wake>)
    ensures SaidSoFar(Run(start, wakes)) == TextOf(wakes)
  {
    if wakes != [] {
      RunSays(start, wakes[..|wakes| - 1]);
      StepSays(Run(start, wakes[..|wakes| - 1]), wakes[|wakes| - 1]);
    }
  }

  /**
   A closed run tells subscribers of exactly the turns, tools and characters that there were, each kind
   in order, and of nothing else.
   */
  lemma ClosedRunTells(start: nat, wakes: seq<Wake>, now: nat)
    ensures Tells(Closed(start, wakes, now).sent, wakes)
  {
    ClosedPicks(start, wakes, now, StartTold, StartOf);
    ClosedPicks(start, wakes, now, EndTold, EndOf);
    ClosedPicks(start, wakes, now, CallTold, CallOf);
    ClosedPicks(start, wakes, now, ReturnTold, ReturnOf);
    ClosedPicks(start, wakes, now, DoneTold, DoneOf);
    RunSays(start, wakes);
    FlushKeepsSaid(Run(start, wakes), now);
  }

  // Time.

  /** A wake-up the loop can have in state `s`, no earlier than `now`. */
  ghost predicate Possible(s: State, w: Wake, now: nat) {
    match w
    case TimedOut(at) => s.pending != "" && at >= s.lastFlush + FLUSH_INTERVAL && at >= now
    case Received(_, flushAt, testAt, reflushAt) => now <= flushAt <= testAt <= reflushAt
  }

  function EndTime(start: nat, wakes: seq<Wake>): nat {
    if wakes == [] then start else wakes[|wakes| - 1].Ends()
  }

  ghost predicate Legal(start: nat, wakes: seq<Wake>) {
    wakes != [] ==>
      var rest, w := wakes[..|wakes| - 1], wakes[|wakes| - 1];
      Legal(start, rest) && Possible(Run(start, rest), w, EndTime(start, rest))
  }

  function TextFrames(frames: seq<Frame>): nat {
    if frames == [] then 0
    else TextFrames(frames[..|frames| - 1]) + if frames[|frames| - 1].TextFrame? then 1 else 0
  }

  /** The speaker of the last text chunk. */
  function LastSpeaker(wakes: seq<Wake>): Option<Speaker> {
    if wakes == [] then None
    else
      var w := wakes[|wakes| - 1];
      if w.Received? && w.ev.TextChunk? then Some(w.ev.who) else LastSpeaker(wakes[..|wakes| - 1])
  }

  /** Chunks by another speaker than the chunk before, and tool and lifecycle events. */
  function Boundaries(wakes: seq<Wake>): nat {
    if wakes == [] then 0
    else
      var rest, w := wakes[..|wakes| - 1], wakes[|wakes| - 1];
      Boundaries(rest) +
      if w.TimedOut? then 0
      else if w.ev.TextChunk? then (if LastSpeaker(rest) !in {None, Some(w.ev.who)} then 1 else 0)
      else if Marker(w.ev).Some? then 1 else 0
  }

  lemma TextFramesAppend(frames: seq<Frame>, f: Frame)
    ensures TextFrames(frames + [f]) == TextFrames(frames) + if f.TextFrame? then 1 else 0
  {
    assert (frames + [f])[..|frames|] == frames;
  }

  lemma FlushCounts(s: State, now: nat)
    ensures TextFrames(Flushed(s, now).sent) == TextFrames(s.sent) + if s.pending == "" then 0 else 1
  {
    TextFramesAppend(s.sent, TextFrame(s.speaker, s.pending));
  }

  /** Each text frame is paid for by a boundary or by a full interval since the flush before it. */
  ghost predicate PaidFor(s: State, start: nat, boundaries: nat, last: Option<Speaker>, now: nat) {
    && start <= s.lastFlush <= now
    && FLUSH_INTERVAL * (TextFrames(s.sent) - boundaries) <= s.lastFlush - start
    && (last.None? ==> s.pending == "")
    && (last.Some? ==> s.speaker == last.value)
  }

  /** A flush at a boundary, or a full interval after the last one, is paid for. */
  lemma FlushPaidFor(s: State, start: nat, boundaries: nat, last: Option<Speaker>, now: nat, at: nat)
    requires PaidFor(s, start, boundaries, last, now) && now <= at
    ensures PaidFor(Flushed(s, at), start, boundaries + 1, last, at)
    ensures s.pending == "" || s.lastFlush + FLUSH_INTERVAL <= at ==>
              PaidFor(Flushed(s, at), start, boundaries, last, at)
  {
    FlushCounts(s, at);
  }

  lemma TurnPaidFor(s: State, start: nat, boundaries: nat, last: Option<Speaker>, now: nat, who: Speaker, at: nat)
    requires PaidFor(s, start, boundaries, last, now) && now <= at
    ensures PaidFor(Turned(s, who, at), start,
                    boundaries + (if last !in {None, Some(who)} then 1 else 0), Some(who), at)
  {
    FlushPaidFor(s, start, boundaries, last, now, at);
  }

  lemma TextStepPaidFor(s: State, start: nat, boundaries: nat, last: Option<Speaker>, now: nat, w: Wake)
    requires PaidFor(s, start, boundaries, last, now) && Possible(s, w, now)
    requires w.Received? && w.ev.TextChunk?
    ensures PaidFor(Step(s, w), start,
                    boundaries + (if last !in {None, Some(w.ev.who)} then 1 else 0), Some(w.ev.who), w.Ends())
  {
    var who := w.ev.who;
    var paid := boundaries + if last !in {None, Some(who)} then 1 else 0;
    TurnPaidFor(s, start, boundaries, last, now, who, w.flushAt);
    FlushPaidFor(Pushed(Turned(s, who, w.flushAt), w.ev.text), start, paid, Some(who), w.testAt, w.reflushAt);
  }

  lemma OtherStepPaidFor(s: State, start: nat, boundaries: nat, last: Option<Speaker>, now: nat, w: Wake)
    requires PaidFor(s, start, boundaries, last, now) && Possible(s, w, now)
    requires w.Received? ==> !w.ev.TextChunk?
    ensures PaidFor(Step(s, w), start,
                    boundaries + (if w.Received? && Marker(w.ev).Some? then 1 else 0), last, w.Ends())
  {
    hide TextFrames;
    FlushPaidFor(s, start, boundaries, last, now, w.Begins());
    if w.Received? && Marker(w.ev).Some? {
      TextFramesAppend(Flushed(s, w.flushAt).sent, Marker(w.ev).value);
    }
  }

  lemma {:induction false} FramesPaidFor(start: nat, wakes: seq<Wake>)
    requires Legal(start, wakes)
    ensures PaidFor(Run(start, wakes), start, Boundaries(wakes), LastSpeaker(wakes), EndTime(start, wakes))
  {
    if wakes != [] {
      var rest, w := wakes[..|wakes| - 1], wakes[|wakes| - 1];
      FramesPaidFor(start, rest);
      var s, last, now := Run(start, rest), LastSpeaker(rest), EndTime(start, rest);
      if w.Received? && w.ev.TextChunk? {
        TextStepPaidFor(s, start, Boundaries(rest), last, now, w);
      } else {
        OtherStepPaidFor(s, start, Boundaries(rest), last, now, w);
      }
    }
  }

  /** The rate bound of a whole run that lasts from `start` to `now`. */
  lemma RateBound(start: nat, wakes: seq<Wake>, now: nat)
    requires Legal(start, wakes) && EndTime(start, wakes) <= now
    ensures TextFrames(Closed(start, wakes, now).sent) <= (now - start) / 100 + Boundaries(wakes) + 1
  {
    FramesPaidFor(start, wakes);
    FlushCounts(Run(start, wakes), now);
  }

  // Latency.

  /** A chunk that is waiting, and when it arrived. */
  datatype Chunk = Chunk(at: nat, text: string)

  /** The chunks that are pending after the run. */
  function Held(start: nat, wakes: seq<Wake>): seq<Chunk> {
    if wakes == [] then []
    else
      var rest, w := wakes[..|wakes| - 1], wakes[|wakes| - 1];
      var before := Run(start, rest);
      if Step(before, w).pending == "" then []
      else if w.Received? && w.ev.TextChunk? then
        (if before.speaker != w.ev.who then [] else Held(start, rest)) + [Chunk(w.flushAt, w.ev.text)]
      else Held(start, rest)
  }

  function Joined(chunks: seq<Chunk>): string {
    if chunks == [] then "" else Joined(chunks[..|chunks| - 1]) + chunks[|chunks| - 1].text
  }

  lemma {:induction false} HeldIsPending(start: nat, wakes: seq<Wake>)
    ensures Joined(Held(start, wakes)) == Run(start, wakes).pending
  {
    if wakes != [] {
      var rest, w := wakes[..|wakes| - 1], wakes[|wakes| - 1];
      HeldIsPending(start, rest);
      if w.Received? && w.ev.TextChunk? {
        var kept := if Run(start, rest).speaker != w.ev.who then [] else Held(start, rest);
        assert (kept + [Chunk(w.flushAt, w.ev.text)])[..|kept|] == kept;
      }
    }
  }

  /** `now` is no later than the deadline of the timer, if one is set. */
  ghost predicate OnTime(s: State, now: nat) {
    s.pending != "" ==> now <= s.lastFlush + FLUSH_INTERVAL
  }

  lemma {:induction false} HeldSinceFlush(start: nat, wakes: seq<Wake>)
    requires Legal(start, wakes)
    ensures forall c | c in Held(start, wakes) :: Run(start, wakes).lastFlush <= c.at
  {
    if wakes != [] {
      var rest := wakes[..|wakes| - 1];
      HeldSinceFlush(start, rest);
      FramesPaidFor(start, rest);
    }
  }

  /** Up to the deadline, the pending text consists of chunks none of which is older than the interval. */
  lemma NoTextWaitsLonger(start: nat, wakes: seq<Wake>, now: nat)
    requires Legal(start, wakes)
    requires OnTime(Run(start, wakes), now)
    ensures Joined(Held(start, wakes)) == Run(start, wakes).pending
    ensures forall c | c in Held(start, wakes) :: now - c.at <= FLUSH_INTERVAL
  {
    HeldIsPending(start, wakes);
    HeldSinceFlush(start, wakes);
  }

  /** After a chunk, text is held only if the interval since the last flush is not over; after a timeout, none is. */
  lemma NothingHeldTooLong(s: State, w: Wake)
    ensures w.TimedOut? ==> Step(s, w).pending == ""
    ensures w.Received? && w.ev.TextChunk? && Step(s, w).pending != "" ==> w.testAt < Step(s, w).lastFlush + 100
  {
  }

  /** The chunk that a wake-up brings. */
  function Arrived(w: Wake): seq<Chunk> {
    if w.Received? && w.ev.TextChunk? then [Chunk(w.flushAt, w.ev.text)] else []
  }

  /** The text is what was held, or what arrives, or both. */
  ghost predicate Brings(held: seq<Chunk>, w: Wake, text: string) {
    text in {Joined(held), Joined(Arrived(w)), Joined(held + Arrived(w))}
  }

  lemma JoinedAppend(chunks: seq<Chunk>, c: Chunk)
    ensures Joined(chunks + [c]) == Joined(chunks) + c.text
  {
    assert (chunks + [c])[..|chunks|] == chunks;
  }

  lemma JoinedOne(c: Chunk)
    ensures Joined([c]) == c.text
  {
    JoinedAppend([], c);
  }

  /** The text frames behind `before` carry what was held and what arrives. */
  ghost predicate Sends(before: seq<Frame>, after: seq<Frame>, held: seq<Chunk>, w: Wake) {
    && before <= after
    && forall i | |before| <= i < |after| && after[i].TextFrame? :: Brings(held, w, after[i].text)
  }

  lemma FlushSends(before: seq<Frame>, s: State, held: seq<Chunk>, w: Wake, now: nat)
    requires Sends(before, s.sent, held, w) && (s.pending != "" ==> Brings(held, w, s.pending))
    ensures Sends(before, Flushed(s, now).sent, held, w)
  {
  }

  lemma PendingBrings(s: State, held: seq<Chunk>, w: Wake)
    requires Joined(held) == s.pending
    ensures Brings(held, w, s.pending)
    ensures w.Received? && w.ev.TextChunk? ==> Brings(held, w, w.ev.text) && Brings(held, w, s.pending + w.ev.text)
  {
    if w.Received? && w.ev.TextChunk? {
      JoinedAppend(held, Chunk(w.flushAt, w.ev.text));
      JoinedOne(Chunk(w.flushAt, w.ev.text));
    }
  }

  lemma StepSends(s: State, held: seq<Chunk>, w: Wake)
    requires Joined(held) == s.pending
    ensures Sends(s.sent, Step(s, w).sent, held, w)
  {
    PendingBrings(s, held, w);
    hide Brings;
    FlushSends(s.sent, s, held, w, w.Begins());
    if w.Received? && w.ev.TextChunk? {
      var s' := Pushed(Turned(s, w.ev.who, w.flushAt), w.ev.text);
      FlushSends(s.sent, s', held, w, w.reflushAt);
    }
  }

  /**
   Every text frame that is ever sent: it consists of the chunks that were held and the one that
   arrives, and if the wake-up came by its deadline, none of them has waited longer than the interval
   and the time that the iteration takes.
   */
  lemma SentTextIsFresh(start: nat, wakes: seq<Wake>)
    requires wakes != [] && Legal(start, wakes)
    ensures var n := |wakes| - 1;
      var before, after, held, w := Run(start, wakes[..n]), Run(start, wakes), Held(start, wakes[..n]), wakes[n];
      && Sends(before.sent, after.sent, held, w)
      && (OnTime(before, w.Begins()) ==>
            forall c | c in held + Arrived(w) :: w.Ends() - c.at <= 100 + (w.Ends() - w.Begins()))
  {
    var n := |wakes| - 1;
    var before, held, w := Run(start, wakes[..n]), Held(start, wakes[..n]), wakes[n];
    HeldIsPending(start, wakes[..n]);
    StepSends(before, held, w);
    if OnTime(before, w.Begins()) {
      NoTextWaitsLonger(start, wakes[..n], w.Begins());
    }
  }

  /** And so is the text that the last flush sends, when the sender is gone. */
  lemma LastTextIsFresh(start: nat, wakes: seq<Wake>, now: nat)
    requires Legal(start, wakes) && OnTime(Run(start, wakes), now)
    ensures var before, after := Run(start, wakes).sent, Closed(start, wakes, now).sent;
      && before <= after
      && (forall i | |before| <= i < |after| :: after[i].TextFrame? && after[i].text == Joined(Held(start, wakes)))
    ensures forall c | c in Held(start, wakes) :: now - c.at <= FLUSH_INTERVAL
  {
    NoTextWaitsLonger(start, wakes, now);
  }
}

module ConvoRelay {
  import opened Wrappers
  import opened RelayProtocol

  class Relay {
    var pending: string
    var speaker: Speaker
    var lastFlush: nat
    /** What went to the broadcast channel. */
    var sent: seq<Frame>

    ghost function Abs(): State
      reads this
    {
      State(pending, speaker, lastFlush, sent)
    }

    constructor (now: nat)
      ensures Abs() == Initial(now)
    {
      pending, speaker, lastFlush, sent := "", Speaker("", 0), now, [];
    }

    method Flush(now: nat)
      modifies this
      ensures Abs() == Flushed(old(Abs()), now)
    {
      if pending != "" {
        var text := pending;
        pending := "";
        sent := sent + [TextFrame(speaker, text)];
      }
      lastFlush := now;
    }

    /** The relay loop over a schedule of wake-ups, until the sender is gone. */
    method RelayEvents(ghost start: nat, wakes: seq<Wake>, closedAt: nat)
      requires Abs() == Initial(start)
      modifies this
      ensures Abs() == Closed(start, wakes, closedAt)
      ensures pending == "" && Tells(sent, wakes)
    {
      var i := 0;
      while i < |wakes|
        invariant 0 <= i <= |wakes|
        invariant Abs() == Run(start, wakes[..i])
      {
        assert wakes[..i + 1][..i] == wakes[..i];
        match wakes[i] {
        case TimedOut(at) => Flush(at);
        case Received(ev, flushAt, testAt, reflushAt) =>
          match ev {
            case TextChunk(who, text) =>
              if speaker.agent != who.agent || speaker.turn != who.turn {
                Flush(flushAt);
                speaker := who;
              }
              pending := pending + text;
              if testAt - lastFlush >= FLUSH_INTERVAL {
                Flush(reflushAt);
              }
            case ToolStart(who, tool) =>
              Flush(flushAt);
              sent := sent + [ToolFrame(who, Some(tool))];
            case ToolResult(who) =>
              Flush(flushAt);
              sent := sent + [ToolFrame(who, None)];
            case OtherChat(_) =>
            case TurnStart(who) =>
              Flush(flushAt);
              sent := sent + [StartFrame(who)];
            case TurnEnd(who) =>
              Flush(flushAt);
              sent := sent + [EndFrame(who)];
            case Error =>
            case Done(n) =>
              Flush(flushAt);
              sent := sent + [DoneFrame(n)];
          }
        }
        i := i + 1;
      }
      assert wakes[..|wakes|] == wakes;
      Flush(closedAt);
      ClosedRunTells(start, wakes, closedAt);
    }
  }
}
