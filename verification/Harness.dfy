/**
 The turn loop of the scenario tester and its books: tokens, cost, tool calls, feedback, and one
 record of metrics for every turn that got an answer.
 */
module Harness {
  import opened Basics
  import opened Wrappers

  /** What one turn brings: an inference error, or a reply with at most one tool call. */
  datatype Turn =
    | InferenceError
    | Reply(tokens: nat, cost: real, parsed: nat, tool: Option<bool>, goalMet: bool)

  datatype Metrics = Metrics(turn: nat, cost: real, toolSucceeded: Option<bool>)

  datatype Outcome = Complete | Incomplete | Errored

  datatype Report = Report(
    outcome: Outcome, turnsUsed: nat, toolCalls: nat, feedbackCount: nat,
    totalTokens: nat, totalCost: real, metrics: seq<Metrics>)

  /** An entry of the collector, by where it came from. */
  datatype Entry =
    | PermissionFailure(permission: string)
    | Parsed(turn: nat)
    | ToolFailure(turn: nat)
    | InferenceFailure(turn: nat)
    | Timeout

  // What the books must say about the first `n` turns.

  function Tokens(turns: seq<Turn>, n: nat): nat
    requires n <= |turns|
  {
    if n == 0 then 0
    else Tokens(turns, n - 1) + if turns[n - 1].Reply? then turns[n - 1].tokens else 0
  }

  function Cost(metrics: seq<Metrics>): real {
    if metrics == [] then 0.0 else Cost(metrics[..|metrics| - 1]) + metrics[|metrics| - 1].cost
  }

  function ToolCalls(metrics: seq<Metrics>): nat {
    if metrics == [] then 0
    else ToolCalls(metrics[..|metrics| - 1]) + if metrics[|metrics| - 1].toolSucceeded.Some? then 1 else 0
  }

  function ParsedEntries(turns: seq<Turn>, n: nat): nat
    requires n <= |turns|
  {
    if n == 0 then 0
    else ParsedEntries(turns, n - 1) + if turns[n - 1].Reply? then turns[n - 1].parsed else 0
  }

  function MetricsOf(turns: seq<Turn>, n: nat): seq<Metrics>
    requires n <= |turns|
  {
    if n == 0 then []
    else
      MetricsOf(turns, n - 1) +
      if turns[n - 1].Reply? then [Metrics(n, turns[n - 1].cost, turns[n - 1].tool)] else []
  }

  /** The feedback of one turn, in the order in which it is collected. */
  function FeedbackOf(turn: Turn, number: nat): seq<Entry> {
    match turn
    case InferenceError => [InferenceFailure(number)]
    case Reply(_, _, parsed, tool, _) =>
      seq(parsed, _ => Parsed(number)) + if tool == Some(false) then [ToolFailure(number)] else []
  }

  function Feedback(turns: seq<Turn>, n: nat): seq<Entry>
    requires n <= |turns|
  {
    if n == 0 then []
    else Feedback(turns, n - 1) + FeedbackOf(turns[n - 1], n)
  }

  function PermissionFeedback(failed: seq<string>): seq<Entry> {
    seq(|failed|, i requires 0 <= i < |failed| => PermissionFailure(failed[i]))
  }

  /** A turn after which the scenario is over. */
  predicate Ends(turn: Turn) {
    turn.InferenceError? || turn.goalMet
  }

  /** None of the first `n` turns ends the scenario. */
  ghost predicate GoesOn(turns: seq<Turn>, n: nat)
    requires n <= |turns|
  {
    forall i | 0 <= i < n :: !Ends(turns[i])
  }

  /** `n` turns are played: none of them but the last ends the scenario, and the last does or none is left. */
  ghost predicate Played(turns: seq<Turn>, maxTurns: nat, n: nat) {
    && n <= maxTurns && n <= |turns|
    && (n > 0 ==> GoesOn(turns, n - 1))
    && (n < maxTurns ==> n > 0 && Ends(turns[n - 1]))
  }

  /** How a scenario stands after its last turn. */
  function OutcomeOf(turns: seq<Turn>, n: nat): Outcome
    requires n <= |turns|
  {
    if n == 0 || !Ends(turns[n - 1]) then Incomplete
    else if turns[n - 1].InferenceError? then Errored
    else Complete
  }

  /**
   A scenario plays on until an inference fails, which makes it errored, or a reply meets the goal, which
   makes it complete; when the turns run out before that, it is incomplete.
   */
  ghost predicate EndsAs(turns: seq<Turn>, maxTurns: nat, n: nat, outcome: Outcome) {
    && n <= maxTurns && n <= |turns|
    && (forall i | 0 <= i < n - 1 :: turns[i].Reply? && !turns[i].goalMet)
    && (outcome == Errored <==> n > 0 && turns[n - 1].InferenceError?)
    && (outcome == Complete <==> n > 0 && turns[n - 1].Reply? && turns[n - 1].goalMet)
    && (outcome == Incomplete ==> n == maxTurns)
  }

  lemma PlayedEndsAs(turns: seq<Turn>, maxTurns: nat, n: nat)
    requires Played(turns, maxTurns, n)
    ensures EndsAs(turns, maxTurns, n, OutcomeOf(turns, n))
  {
  }

  /** The report agrees with the turns that were played, and with its own metrics. */
  ghost predicate Reports(turns: seq<Turn>, r: Report) {
    && r.turnsUsed <= |turns|
    && r.outcome == OutcomeOf(turns, r.turnsUsed)
    && r.metrics == MetricsOf(turns, r.turnsUsed)
    && r.totalTokens == Sum(TokenCounts(turns, r.turnsUsed))
    && r.feedbackCount == Sum(ParsedCounts(turns, r.turnsUsed))
    && r.totalCost == RealSum(Costs(r.metrics))
    && r.toolCalls == |set i | 0 <= i < |r.metrics| && r.metrics[i].toolSucceeded.Some?|
  }

  /** The tokens of each turn; none for a failed inference. */
  function TokenCounts(turns: seq<Turn>, n: nat): (counts: seq<nat>)
    requires n <= |turns|
    ensures |counts| == n
    ensures forall i | 0 <= i < n :: counts[i] == if turns[i].Reply? then turns[i].tokens else 0
  {
    seq(n, i requires 0 <= i < n => if turns[i].Reply? then turns[i].tokens else 0)
  }

  function ParsedCounts(turns: seq<Turn>, n: nat): (counts: seq<nat>)
    requires n <= |turns|
    ensures |counts| == n
    ensures forall i | 0 <= i < n :: counts[i] == if turns[i].Reply? then turns[i].parsed else 0
  {
    seq(n, i requires 0 <= i < n => if turns[i].Reply? then turns[i].parsed else 0)
  }

  function Costs(metrics: seq<Metrics>): (costs: seq<real>)
    ensures |costs| == |metrics| && forall i | 0 <= i < |costs| :: costs[i] == metrics[i].cost
  {
    seq(|metrics|, i requires 0 <= i < |metrics| => metrics[i].cost)
  }

  lemma {:induction false} CountsAreSums(turns: seq<Turn>, n: nat)
    requires n <= |turns|
    ensures Tokens(turns, n) == Sum(TokenCounts(turns, n))
    ensures ParsedEntries(turns, n) == Sum(ParsedCounts(turns, n))
  {
    if n > 0 {
      CountsAreSums(turns, n - 1);
      var tokens, parsed := TokenCounts(turns, n), ParsedCounts(turns, n);
      assert tokens == TokenCounts(turns, n - 1) + [tokens[n - 1]];
      assert parsed == ParsedCounts(turns, n - 1) + [parsed[n - 1]];
      SumOneMore(TokenCounts(turns, n - 1), tokens[n - 1]);
      SumOneMore(ParsedCounts(turns, n - 1), parsed[n - 1]);
    }
  }

  lemma {:induction false} CostIsSum(metrics: seq<Metrics>)
    ensures Cost(metrics) == RealSum(Costs(metrics))
  {
    if metrics != [] {
      var n := |metrics| - 1;
      CostIsSum(metrics[..n]);
      assert Costs(metrics) == Costs(metrics[..n]) + [metrics[n].cost];
      RealSumOneMore(Costs(metrics[..n]), metrics[n].cost);
    }
  }

  lemma {:induction false} ToolCallsAreCounted(metrics: seq<Metrics>)
    ensures ToolCalls(metrics) == |set i | 0 <= i < |metrics| && metrics[i].toolSucceeded.Some?|
  {
    if metrics != [] {
      var n := |metrics| - 1;
      ToolCallsAreCounted(metrics[..n]);
      var before := set i | 0 <= i < n && metrics[..n][i].toolSucceeded.Some?;
      assert (set i | 0 <= i < |metrics| && metrics[i].toolSucceeded.Some?) ==
             if metrics[n].toolSucceeded.Some? then before + {n} else before;
    }
  }

  /** What the scenario adds to the collector: the feedback of its turns, and an entry for a timeout. */
  function Collected(turns: seq<Turn>, r: Report): seq<Entry>
    requires r.turnsUsed <= |turns|
  {
    Feedback(turns, r.turnsUsed) + if r.outcome == Incomplete then [Timeout] else []
  }

  /** A scenario whose permissions cannot all be granted is over before its first turn. */
  method RunScenario(failedPermissions: seq<string>, maxTurns: nat, turns: seq<Turn>, collector: seq<Entry>)
    returns (report: Report, collected: seq<Entry>)
    requires |turns| >= maxTurns
    ensures failedPermissions != [] ==>
              && report == Report(Errored, 0, 0, |failedPermissions|, 0, 0.0, [])
              && collected == collector + PermissionFeedback(failedPermissions)
              && forall i | 0 <= i < |failedPermissions| ::
                   collected[|collector| + i] == PermissionFailure(failedPermissions[i])
    ensures failedPermissions == [] ==>
              && Played(turns, maxTurns, report.turnsUsed)
              && Reports(turns, report)
              && EndsAs(turns, maxTurns, report.turnsUsed, report.outcome)
              && collected == collector + Collected(turns, report)
  {
    if failedPermissions != [] {
      collected := collector;
      var i := 0;
      while i < |failedPermissions|
        invariant 0 <= i <= |failedPermissions|
        invariant collected == collector + PermissionFeedback(failedPermissions[..i])
      {
        collected := collected + [PermissionFailure(failedPermissions[i])];
        i := i + 1;
      }
      assert failedPermissions[..i] == failedPermissions;
      report := Report(Errored, 0, 0, |failedPermissions|, 0, 0.0, []);
    } else {
      report, collected := RunTurns(maxTurns, turns, collector);
    }
  }

  /** The running counters of a scenario. */
  datatype Books = Books(
    toolCalls: nat, feedbackCount: nat, totalTokens: nat, totalCost: real, metrics: seq<Metrics>, added: seq<Entry>)

  ghost predicate Balanced(turns: seq<Turn>, n: nat, b: Books) {
    && n <= |turns|
    && b.metrics == MetricsOf(turns, n)
    && b.totalTokens == Tokens(turns, n)
    && b.feedbackCount == ParsedEntries(turns, n)
    && b.added == Feedback(turns, n)
    && b.totalCost == Cost(b.metrics)
    && b.toolCalls == ToolCalls(b.metrics)
  }

  /** An inference error is collected; nothing else is counted for the turn. */
  method RecordError(turns: seq<Turn>, turn: nat, b: Books) returns (b': Books)
    requires 0 < turn <= |turns| && Balanced(turns, turn - 1, b) && turns[turn - 1].InferenceError?
    ensures Balanced(turns, turn, b')
  {
    b' := b.(added := b.added + [InferenceFailure(turn)]);
  }

  method RecordReply(turns: seq<Turn>, turn: nat, b: Books) returns (b': Books)
    requires 0 < turn <= |turns| && Balanced(turns, turn - 1, b) && turns[turn - 1].Reply?
    ensures Balanced(turns, turn, b')
  {
    var t := turns[turn - 1];
    var entries, called := CollectReply(t, turn);
    var record := Metrics(turn, t.cost, t.tool);
    MetricsAppend(b.metrics, record);
    b' := Books(b.toolCalls + called, b.feedbackCount + t.parsed, b.totalTokens + t.tokens, b.totalCost + t.cost,
                b.metrics + [record], b.added + entries);
  }

  /**
   Runs a scenario against the turns that the model would take. The report is stated twice: by the
   turns played, and by what the metrics of the report itself add up to.
   */
  method RunTurns(maxTurns: nat, turns: seq<Turn>, collector: seq<Entry>)
    returns (report: Report, collected: seq<Entry>)
    requires |turns| >= maxTurns
    ensures Played(turns, maxTurns, report.turnsUsed)
    ensures Reports(turns, report)
    ensures EndsAs(turns, maxTurns, report.turnsUsed, report.outcome)
    ensures collected == collector + Collected(turns, report)
    ensures report.outcome == Incomplete ==> report.turnsUsed == maxTurns
  {
    var b, outcome, turnsUsed := PlayTurns(maxTurns, turns);
    PlayedEndsAs(turns, maxTurns, turnsUsed);
    CountsAreSums(turns, turnsUsed);
    CostIsSum(b.metrics);
    ToolCallsAreCounted(b.metrics);
    collected := collector + (b.added + if outcome == Incomplete then [Timeout] else []);
    report := Report(outcome, turnsUsed, b.toolCalls, b.feedbackCount, b.totalTokens, b.totalCost, b.metrics);
  }

  lemma OneMoreTurn(turns: seq<Turn>, n: nat)
    requires 0 < n <= |turns| && GoesOn(turns, n - 1) && !Ends(turns[n - 1])
    ensures GoesOn(turns, n)
  {
  }

  /** The turn loop. */
  method PlayTurns(maxTurns: nat, turns: seq<Turn>) returns (b: Books, outcome: Outcome, turnsUsed: nat)
    requires |turns| >= maxTurns
    ensures Played(turns, maxTurns, turnsUsed) && Balanced(turns, turnsUsed, b)
    ensures outcome == OutcomeOf(turns, turnsUsed)
    ensures outcome == Incomplete ==> turnsUsed == maxTurns
  {
    b, outcome, turnsUsed := Books(0, 0, 0, 0.0, [], []), Incomplete, 0;
    assert Balanced(turns, 0, b);
    hide Balanced;
    var turn: nat := 1;
    while turn <= maxTurns
      invariant 1 <= turn <= maxTurns + 1 && turnsUsed == turn - 1
      invariant outcome == Incomplete && GoesOn(turns, turnsUsed)
      invariant Balanced(turns, turnsUsed, b)
    {
      turnsUsed := turn;
      var t := turns[turn - 1];
      if t.InferenceError? {
        b := RecordError(turns, turn, b);
        outcome := Errored;
        return;
      }
      b := RecordReply(turns, turn, b);
      if t.goalMet {
        outcome := Complete;
        return;
      }
      OneMoreTurn(turns, turnsUsed);
      turn := turn + 1;
    }
  }

  /** The entries parsed from a reply, its tool call, and the entry for a call that failed. */
  method CollectReply(t: Turn, turn: nat) returns (entries: seq<Entry>, called: nat)
    requires t.Reply?
    ensures entries == FeedbackOf(t, turn)
    ensures called == if t.tool.Some? then 1 else 0
  {
    entries, called := [], 0;
    while |entries| < t.parsed
      invariant |entries| <= t.parsed && forall i | 0 <= i < |entries| :: entries[i] == Parsed(turn)
    {
      entries := entries + [Parsed(turn)];
    }
    if t.tool.Some? {
      called := 1;
      if !t.tool.value {
        entries := entries + [ToolFailure(turn)];
      }
    }
  }

  lemma MetricsAppend(metrics: seq<Metrics>, m: Metrics)
    ensures Cost(metrics + [m]) == Cost(metrics) + m.cost
    ensures ToolCalls(metrics + [m]) == ToolCalls(metrics) + if m.toolSucceeded.Some? then 1 else 0
  {
    assert (metrics + [m])[..|metrics|] == metrics;
  }

  function CountFailures(turns: seq<Turn>, n: nat): nat
    requires n <= |turns|
  {
    if n == 0 then 0
    else CountFailures(turns, n - 1) + if turns[n - 1].InferenceError? || turns[n - 1].tool == Some(false) then 1 else 0
  }

  /** The collector grows by the parsed entries and one entry for each failed tool call or inference. */
  lemma {:induction false} FeedbackAddsUp(turns: seq<Turn>, n: nat)
    requires n <= |turns|
    ensures |Feedback(turns, n)| == ParsedEntries(turns, n) + CountFailures(turns, n)
  {
    if n > 0 {
      FeedbackAddsUp(turns, n - 1);
    }
  }

  /** One record for every turn used, but for a last one whose inference failed; numbered in order. */
  lemma {:induction false} MetricsAddUp(turns: seq<Turn>, maxTurns: nat, n: nat)
    requires Played(turns, maxTurns, n)
    ensures var metrics := MetricsOf(turns, n);
      && |metrics| == n - (if n > 0 && turns[n - 1].InferenceError? then 1 else 0)
      && forall i | 0 <= i < |metrics| ::
           turns[i].Reply? && metrics[i] == Metrics(i + 1, turns[i].cost, turns[i].tool)
  {
    if n > 0 {
      NoErrorBefore(turns, n - 1);
    }
  }

  lemma {:induction false} NoErrorBefore(turns: seq<Turn>, n: nat)
    requires n <= |turns| && GoesOn(turns, n)
    ensures |MetricsOf(turns, n)| == n
    ensures forall i | 0 <= i < n ::
              turns[i].Reply? && MetricsOf(turns, n)[i] == Metrics(i + 1, turns[i].cost, turns[i].tool)
  {
    if n > 0 {
      NoErrorBefore(turns, n - 1);
    }
  }

  /** The turn that an entry is about; 0 if it is about none. */
  function NumberOf(e: Entry): nat {
    match e
    case Parsed(k) => k
    case ToolFailure(k) => k
    case InferenceFailure(k) => k
    case _ => 0
  }

  /** How often a turn gives rise to an entry about it. */
  function Times(turn: Turn, e: Entry): nat {
    match e
    case Parsed(_) => if turn.Reply? then turn.parsed else 0
    case ToolFailure(_) => if turn.Reply? && turn.tool == Some(false) then 1 else 0
    case InferenceFailure(_) => if turn.InferenceError? then 1 else 0
    case _ => 0
  }

  lemma OneTurnsFeedback(turn: Turn, number: nat, e: Entry)
    requires number > 0
    ensures multiset(FeedbackOf(turn, number))[e] == if NumberOf(e) == number then Times(turn, e) else 0
  {
    if turn.Reply? {
      Copies(seq(turn.parsed, _ => Parsed(number)), Parsed(number), e);
    }
  }

  lemma {:induction false} Copies(s: seq<Entry>, x: Entry, e: Entry)
    requires forall i | 0 <= i < |s| :: s[i] == x
    ensures multiset(s)[e] == if e == x then |s| else 0
  {
    if s != [] {
      assert s == s[..|s| - 1] + [x];
      Copies(s[..|s| - 1], x, e);
    }
  }

  /**
   How often an entry is collected in a scenario: for each reply as many as were parsed from it, one for
   a tool call that failed, one for a failed inference, and nothing else.
   */
  lemma {:induction false} FeedbackExactly(turns: seq<Turn>, n: nat, e: Entry)
    requires n <= |turns|
    ensures multiset(Feedback(turns, n))[e] == if 1 <= NumberOf(e) <= n then Times(turns[NumberOf(e) - 1], e) else 0
  {
    hide FeedbackOf, Times, NumberOf;
    if n > 0 {
      FeedbackExactly(turns, n - 1, e);
      OneTurnsFeedback(turns[n - 1], n, e);
    }
  }
}
