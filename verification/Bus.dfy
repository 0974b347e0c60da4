/**
 The intent bus: who owns the socket file over a history of kernels, and which answer a client
 gets while the server pushes messages of its own.
 */
module SocketProtocol {
  import opened Wrappers

  type Inode = nat

  /** A bound server: the file its listener was made on, and the identity it read back. */
  datatype Server = Server(listening: Inode, socketId: Option<Inode>)

  /** The file at the socket path, and the servers that are running. */
  datatype State = State(file: Option<Inode>, live: map<nat, Server>)

  /** What a connection attempt says about the file. */
  datatype Probe = Connected | Refused | NotFound | Undecided

  datatype Op =
    | Bind(id: nat, inode: Inode, probe: Probe, secured: bool)
    | Drop(id: nat)
    | Crash(id: nat)
    | Replace(file: Option<Inode>)

  predicate Serves(s: State, x: Inode) {
    exists id :: id in s.live && s.live[id].listening == x
  }

  predicate Served(s: State) {
    s.file.Some? && Serves(s, s.file.value)
  }

  /**
   A new socket file has an inode of its own: one that is neither at the path nor held open by a
   listener. A connection succeeds only if someone is serving, and is refused only if nobody is.
   */
  ghost predicate Enabled(s: State, op: Op) {
    match op
    case Bind(id, inode, probe, _) =>
      && id !in s.live && s.file != Some(inode) && !Serves(s, inode)
      && (s.file.Some? && probe == Connected ==> Served(s))
      && (s.file.Some? && (probe == Refused || probe == NotFound) ==> !Served(s))
    case Drop(id) => id in s.live
    case Crash(id) => id in s.live
    case Replace(_) => true
  }

  /** The file that an operation removes from the path. */
  function Unlinked(s: State, op: Op): Option<Inode> {
    match op
    case Bind(_, _, probe, _) => if s.file.Some? && (probe == Refused || probe == NotFound) then s.file else None
    case Drop(id) =>
      if id in s.live && s.live[id].socketId.Some? && s.file == s.live[id].socketId then s.file else None
    case _ => None
  }

  /** Whether a bind gets as far as a listener. */
  predicate Listens(s: State, op: Op) {
    op.Bind? && (s.file.None? || Unlinked(s, op).Some?)
  }

  function Step(s: State, op: Op): State {
    match op
    case Bind(id, inode, _, secured) =>
      if !Listens(s, op) then s
      else State(Some(inode), if secured then s.live[id := Server(inode, Some(inode))] else s.live)
    case Drop(id) => State(if Unlinked(s, op).Some? then None else s.file, s.live - {id})
    case Crash(id) => s.(live := s.live - {id})
    case Replace(file) => s.(file := file)
  }

  function Run(ops: seq<Op>): State {
    if ops == [] then State(None, map[]) else Step(Run(ops[..|ops| - 1]), ops[|ops| - 1])
  }

  ghost predicate Legal(ops: seq<Op>) {
    ops != [] ==> Legal(ops[..|ops| - 1]) && Enabled(Run(ops[..|ops| - 1]), ops[|ops| - 1])
  }

  /** Every server knows its own file, and no two have the same. */
  ghost predicate OwnFiles(s: State) {
    && (forall id | id in s.live :: s.live[id].socketId == Some(s.live[id].listening))
    && (forall i, j {:trigger s.live[i], s.live[j]} | i in s.live && j in s.live && i != j ::
          s.live[i].listening != s.live[j].listening)
  }

  lemma {:induction false} EveryRunHasOwnFiles(ops: seq<Op>)
    requires Legal(ops)
    ensures OwnFiles(Run(ops))
  {
    if ops != [] {
      EveryRunHasOwnFiles(ops[..|ops| - 1]);
    }
  }

  /** No bind or drop ever unlinks the file that another live server is serving. */
  lemma NobodyElseIsCutOff(ops: seq<Op>, op: Op)
    requires Legal(ops + [op])
    ensures var s := Run(ops);
      Unlinked(s, op).Some? ==>
        forall id | id in s.live && s.live[id].listening == Unlinked(s, op).value :: op == Drop(id)
  {
    assert (ops + [op])[..|ops|] == ops;
    EveryRunHasOwnFiles(ops);
    var s := Run(ops);
    if op.Bind? && Unlinked(s, op).Some? {
      assert !Serves(s, s.file.value);
    }
  }

  /** A drop leaves no file behind exactly if the file at the path is the server's own, or there is none. */
  lemma DropRemovesOwnFile(ops: seq<Op>, id: nat)
    requires Legal(ops + [Drop(id)])
    ensures var s, s' := Run(ops), Run(ops + [Drop(id)]);
      && id in s.live && id !in s'.live
      && (s'.file == None <==> s.file.None? || s.file == Some(s.live[id].listening))
      && (s'.file != None ==> s'.file == s.file)
  {
    assert (ops + [Drop(id)])[..|ops|] == ops;
    EveryRunHasOwnFiles(ops);
  }

  ghost predicate NoReplacement(ops: seq<Op>) {
    forall i | 0 <= i < |ops| :: !ops[i].Replace?
  }

  /** At most one server runs, and its file is the one at the path. */
  ghost predicate OneOwner(s: State) {
    && (forall i, j | i in s.live && j in s.live :: i == j)
    && (forall id | id in s.live :: s.file == Some(s.live[id].listening))
  }

  lemma {:induction false} WithoutReplacementOneOwner(ops: seq<Op>)
    requires Legal(ops) && NoReplacement(ops)
    ensures OneOwner(Run(ops))
  {
    if ops != [] {
      var rest, op := ops[..|ops| - 1], ops[|ops| - 1];
      WithoutReplacementOneOwner(rest);
      var s := Run(rest);
      forall id | id in s.live ensures Served(s) {
        assert Serves(s, s.live[id].listening);
      }
      assert !op.Replace?;
    }
  }

  /**
   After every run, replacements included: a bind whose probe is decided and whose file can be secured
   succeeds exactly when nobody serves the file at the path. That makes a second server exactly when
   one is running all the same, on a file that is no longer there.
   */
  lemma BindSucceedsExactlyWhenUnserved(ops: seq<Op>, op: Op)
    requires Legal(ops + [op]) && op.Bind? && op.secured
    requires Run(ops).file.Some? ==> op.probe != Undecided
    ensures var s, s' := Run(ops), Step(Run(ops), op);
      && (op.id in s'.live <==> !Served(s))
      && (op.id in s'.live ==> s'.file == Some(op.inode) && s'.live - {op.id} == s.live)
      && (op.id !in s'.live ==> s' == s)
      && (op.id in s'.live && s'.live.Keys != {op.id} <==> !Served(s) && s.live != map[])
  {
    assert (ops + [op])[..|ops|] == ops;
    var s, s' := Run(ops), Step(Run(ops), op);
    if op.id in s'.live {
      assert s'.live.Keys == s.live.Keys + {op.id};
    }
  }

  /**
   Without replacement, a bind whose probe is decided and whose file can be secured succeeds
   exactly when no server is running, and then owns the path.
   */
  lemma BindSucceedsExactlyWhenAlone(ops: seq<Op>, op: Op)
    requires Legal(ops + [op]) && NoReplacement(ops) && op.Bind?
    requires op.secured && (Run(ops).file.Some? ==> op.probe != Undecided)
    ensures var s, s' := Run(ops), Step(Run(ops), op);
      && (op.id in s'.live <==> s.live == map[])
      && (op.id in s'.live ==> s'.file == Some(op.inode))
      && (op.id !in s'.live ==> s' == s)
  {
    assert (ops + [op])[..|ops|] == ops;
    WithoutReplacementOneOwner(ops);
    BindSucceedsExactlyWhenUnserved(ops, op);
    var s := Run(ops);
    if s.live != map[] {
      var id :| id in s.live;
      assert Serves(s, s.live[id].listening);
    }
  }

  /** Outside replacement is what it takes to get two servers: remove the file, bind again. */
  lemma ReplacementAllowsTwo(x: Inode, y: Inode)
    requires x != y
    ensures var ops := [Bind(0, x, NotFound, true), Replace(None), Bind(1, y, NotFound, true)];
      Legal(ops) && 0 in Run(ops).live && 1 in Run(ops).live
      && Run(ops + [Drop(0)]).file == Some(y)
  {
    var b0, r, b1 := Bind(0, x, NotFound, true), Replace(None), Bind(1, y, NotFound, true);
    assert [b0][..0] == [] && [b0, r][..1] == [b0] && [b0, r, b1][..2] == [b0, r];
    assert Legal([]) && Run([]) == State(None, map[]);
    assert Legal([b0]) && Run([b0]) == State(Some(x), map[0 := Server(x, Some(x))]);
    assert Legal([b0, r]) && Run([b0, r]) == State(None, map[0 := Server(x, Some(x))]);
    assert ([b0, r, b1] + [Drop(0)])[..3] == [b0, r, b1];
  }
}

module BusServers {
  import opened Wrappers
  import opened SocketProtocol

  datatype BindError = AlreadyListening | CannotDetermine | CannotSecure

  /** The socket path with the kernels that come and go on it. */
  class Host {
    var file: Option<Inode>
    var live: map<nat, Server>

    ghost function Abs(): State
      reads this
    {
      State(file, live)
    }

    constructor ()
      ensures Abs() == Run([])
    {
      file, live := None, map[];
    }

    method BindServer(id: nat, inode: Inode, probe: Probe, secured: bool) returns (r: Result<Server, BindError>)
      modifies this
      ensures Abs() == Step(old(Abs()), Bind(id, inode, probe, secured))
      ensures r.Ok? <==> Listens(old(Abs()), Bind(id, inode, probe, secured)) && secured
      ensures r.Ok? ==> id in live && live[id] == r.value
      ensures r == Err(AlreadyListening) <==> old(file).Some? && probe == Connected
      ensures r == Err(CannotDetermine) <==> old(file).Some? && probe == Undecided
      ensures r == Err(CannotSecure) <==> !secured && (old(file).Some? ==> probe in {Refused, NotFound})
      ensures r.Ok? ==> r.value == Server(inode, Some(inode)) && live == old(live)[id := r.value]
      ensures r.Err? ==> live == old(live)
      ensures file == if r.Ok? || r == Err(CannotSecure) then Some(inode) else old(file)
    {
      if file.Some? {
        match probe
        case Connected => return Err(AlreadyListening);
        case Undecided => return Err(CannotDetermine);
        case Refused => file := None;
        case NotFound => file := None;
      }
      file := Some(inode);
      if !secured {
        return Err(CannotSecure);
      }
      var server := Server(inode, file);
      live := live[id := server];
      return Ok(server);
    }

    method DropServer(id: nat)
      requires id in live
      modifies this
      ensures Abs() == Step(old(Abs()), Drop(id))
      ensures live == old(live) - {id}
      ensures file == if old(file).Some? && old(file) == old(live)[id].socketId then None else old(file)
    {
      if live[id].socketId.Some? && file == live[id].socketId {
        file := None;
      }
      live := live - {id};
    }
  }
}

module BusClients {
  import opened Wrappers

  /** An answer carries the number of the command that it answers; the wire format does not. */
  datatype Message = Response(to: nat) | Push(content: string)

  /** What the server sends while the `n`-th command waits: one response, and pushes around it. */
  ghost predicate Serves(arriving: seq<Message>, n: nat) {
    exists k :: 0 <= k < |arriving| && arriving[k] == Response(n)
                && forall i | 0 <= i < |arriving| && i != k :: arriving[i].Push?
  }

  ghost predicate OnlyPushes(stream: seq<Message>) {
    forall i | 0 <= i < |stream| :: stream[i].Push?
  }

  /** The first response in the stream, and what is behind it. */
  function Receive(stream: seq<Message>): Option<(nat, seq<Message>)> {
    if stream == [] then None
    else if stream[0].Response? then Some((stream[0].to, stream[1..]))
    else Receive(stream[1..])
  }

  lemma {:induction false} ReceiveSkipsPushes(pushes: seq<Message>, stream: seq<Message>)
    requires OnlyPushes(pushes)
    ensures Receive(pushes + stream) == Receive(stream)
  {
    if pushes == [] {
      assert pushes + stream == stream;
    } else {
      assert (pushes + stream)[1..] == pushes[1..] + stream;
      ReceiveSkipsPushes(pushes[1..], stream);
    }
  }

  lemma {:induction false} ReceiveAnswer(arriving: seq<Message>, n: nat, k: nat)
    requires k < |arriving| && arriving[k] == Response(n)
    requires forall i | 0 <= i < |arriving| && i != k :: arriving[i].Push?
    ensures Receive(arriving) == Some((n, arriving[k + 1..]))
  {
    if k > 0 {
      ReceiveAnswer(arriving[1..], n, k - 1);
      assert arriving[1..][k..] == arriving[k + 1..];
    }
  }

  /** With nothing but pushes queued, a command gets its own answer and leaves nothing but pushes. */
  lemma OwnAnswer(stream: seq<Message>, arriving: seq<Message>, n: nat)
    requires OnlyPushes(stream) && Serves(arriving, n)
    ensures Receive(stream + arriving).Some?
    ensures Receive(stream + arriving).value.0 == n && OnlyPushes(Receive(stream + arriving).value.1)
  {
    var k :| 0 <= k < |arriving| && arriving[k] == Response(n)
             && forall i | 0 <= i < |arriving| && i != k :: arriving[i].Push?;
    ReceiveSkipsPushes(stream, arriving);
    ReceiveAnswer(arriving, n, k);
  }

  /** The stream before the `n`-th command, when `sent[i]` arrives during the `i`-th. */
  function Queued(sent: seq<seq<Message>>): Option<seq<Message>> {
    if sent == [] then Some([])
    else
      match Queued(sent[..|sent| - 1])
      case None => None
      case Some(stream) =>
        match Receive(stream + sent[|sent| - 1])
        case None => None
        case Some((_, rest)) => Some(rest)
  }

  ghost predicate Proper(sent: seq<seq<Message>>) {
    forall i | 0 <= i < |sent| :: Serves(sent[i], i)
  }

  /** However many commands went before, no response is queued when the next one is sent. */
  lemma {:induction false} NoStaleResponse(sent: seq<seq<Message>>)
    requires Proper(sent)
    ensures Queued(sent).Some? && OnlyPushes(Queued(sent).value)
  {
    if sent != [] {
      var n := |sent| - 1;
      NoStaleResponse(sent[..n]);
      OwnAnswer(Queued(sent[..n]).value, sent[n], n);
    }
  }

  /** The n-th command of a run gets the n-th answer. */
  lemma NthAnswer(sent: seq<seq<Message>>, n: nat)
    requires Proper(sent) && n < |sent|
    ensures Queued(sent[..n]).Some?
    ensures var r := Receive(Queued(sent[..n]).value + sent[n]); r.Some? && r.value.0 == n
  {
    NoStaleResponse(sent[..n]);
    OwnAnswer(Queued(sent[..n]).value, sent[n], n);
  }

  lemma {:induction false} FirstResponse(stream: seq<Message>)
    ensures OnlyPushes(stream) <==> Receive(stream).None?
    ensures Receive(stream).Some? ==> exists i :: 0 <= i < |stream| && stream[i] == Response(Receive(stream).value.0)
  {
    if stream != [] {
      FirstResponse(stream[1..]);
      if OnlyPushes(stream[1..]) && stream[0].Push? {
        assert OnlyPushes(stream);
      }
      if stream[0].Push? && Receive(stream[1..]).Some? {
        var i :| 0 <= i < |stream[1..]| && stream[1..][i] == Response(Receive(stream[1..]).value.0);
        assert stream[i + 1] == Response(Receive(stream).value.0);
      }
    }
  }

  lemma {:induction false} ReceiveFromFront(stream: seq<Message>, more: seq<Message>)
    requires Receive(stream).Some?
    ensures Receive(stream + more) == Some((Receive(stream).value.0, Receive(stream).value.1 + more))
  {
    assert (stream + more)[1..] == stream[1..] + more;
    if stream[0].Push? {
      ReceiveFromFront(stream[1..], more);
    }
  }

  /** Exactly then: if an answer to another command is queued, the client takes that one for its own. */
  lemma OwnAnswerExactly(stream: seq<Message>, arriving: seq<Message>, n: nat)
    requires Serves(arriving, n)
    requires forall i | 0 <= i < |stream| && stream[i].Response? :: stream[i].to != n
    ensures Receive(stream + arriving).Some?
    ensures Receive(stream + arriving).value.0 == n <==> OnlyPushes(stream)
  {
    FirstResponse(stream);
    if OnlyPushes(stream) {
      OwnAnswer(stream, arriving, n);
    } else {
      ReceiveFromFront(stream, arriving);
    }
  }

  /** An answer that is still queued is taken for the answer to the next command. */
  lemma StaleAnswerIsTaken()
    ensures Serves([Response(1)], 1) && Receive([Response(0)] + [Response(1)]) == Some((0, [Response(1)]))
  {
    assert [Response(1)][0] == Response(1);
    assert ([Response(0)] + [Response(1)])[1..] == [Response(1)];
  }

  /** The stream ends before a response arrives. */
  datatype ReadError = EndOfStream

  class BusClient {
    /** What the server has sent and the client has not read. */
    var stream: seq<Message>

    constructor ()
      ensures stream == []
    {
      stream := [];
    }

    /**
     Sends the `n`-th command; `arriving` is what the server sends during the call. If that has no
     response, the call ends with the stream.
     */
    method SendCommand(n: nat, arriving: seq<Message>) returns (answer: Result<nat, ReadError>)
      modifies this
      ensures answer.Err? <==> OnlyPushes(old(stream) + arriving)
      ensures answer.Err? ==> stream == []
      ensures answer.Ok? ==> Receive(old(stream) + arriving) == Some((answer.value, stream))
      ensures OnlyPushes(old(stream)) && Serves(arriving, n) ==> answer == Ok(n) && OnlyPushes(stream)
    {
      if OnlyPushes(stream) && Serves(arriving, n) {
        OwnAnswer(stream, arriving, n);
      }
      stream := stream + arriving;
      FirstResponse(stream);
      ghost var result := Receive(stream);
      while stream != []
        invariant Receive(stream) == result
        decreases |stream|
      {
        var m := stream[0];
        stream := stream[1..];
        match m
        case Response(to) => return Ok(to);
        case Push(_) =>
      }
      return Err(EndOfStream);
    }
  }
}
