/**
 The API key store: records in memory, written through to a database by background tasks.

 `KeyStoreProtocol` is the state machine: an operation changes memory and queues a write, a drain
 step applies one queued write, a reopen step loads the unrevoked rows. `ApiKeyStores` is the
 class whose methods take these steps.
 */
module KeyStoreProtocol {
  import opened Wrappers

  const KEY_PREFIX := "agos_"
  const LOOKUP_LENGTH := 16

  datatype Record = Record(
    id: string, name: string, keyHash: int, permissions: seq<string>, createdAt: int,
    lastUsedAt: Option<int>, expiresAt: Option<int>, revoked: bool)

  /** Records by lookup; the same shape in memory and in the database. */
  type Table = map<string, Record>

  datatype Write =
    | Insert(lookup: string, row: Record)
    | Touch(lookup: string, at: int)
    | Revoke(lookups: set<string>)
    | RevokeId(id: string)
    | Purge(name: string, now: int)

  function Get(t: Table, l: string): Option<Record> {
    if l in t then Some(t[l]) else None
  }

  /** The lookup of a well-shaped key: the first sixteen characters after the prefix. */
  function LookupOf(key: string): (lookup: Option<string>)
    ensures lookup.Some? <==> "agos_" <= key && |key| >= 21
    ensures lookup.Some? ==> lookup.value == key[5..21]
  {
    if KEY_PREFIX <= key && |key| - |KEY_PREFIX| >= LOOKUP_LENGTH
    then Some(key[|KEY_PREFIX|..|KEY_PREFIX| + LOOKUP_LENGTH])
    else None
  }

  predicate Dead(r: Record, name: string, now: int) {
    r.name == name && (r.revoked || (r.expiresAt.Some? && r.expiresAt.value <= now))
  }

  predicate Revokes(w: Write, l: string, r: Record) {
    (w.Revoke? && l in w.lookups) || (w.RevokeId? && r.id == w.id)
  }

  /** What a write does to the row under `l`. */
  function RowEffect(w: Write, l: string, r: Option<Record>): Option<Record> {
    match w
    case Insert(lookup, row) => if lookup == l then Some(row) else r
    case Touch(lookup, at) =>
      if r.Some? && lookup == l then Some(r.value.(lastUsedAt := Some(at))) else r
    case Revoke(_) => if r.Some? && Revokes(w, l, r.value) then Some(r.value.(revoked := true)) else r
    case RevokeId(_) => if r.Some? && Revokes(w, l, r.value) then Some(r.value.(revoked := true)) else r
    case Purge(name, now) => if r.Some? && Dead(r.value, name, now) then None else r
  }

  /** What a write does to the table. */
  function Effect(w: Write, t: Table): Table {
    match w
    case Insert(lookup, row) => t[lookup := row]
    case Touch(lookup, at) => if lookup in t then t[lookup := t[lookup].(lastUsedAt := Some(at))] else t
    case Purge(name, now) => map l | l in t && !Dead(t[l], name, now) :: t[l]
    case _ => map l | l in t :: if Revokes(w, l, t[l]) then t[l].(revoked := true) else t[l]
  }

  lemma EffectByRow(w: Write, t: Table, l: string)
    ensures Get(Effect(w, t), l) == RowEffect(w, l, Get(t, l))
  {
  }

  function RowAfter(ws: seq<Write>, l: string, r: Option<Record>): Option<Record> {
    if ws == [] then r else RowEffect(ws[|ws| - 1], l, RowAfter(ws[..|ws| - 1], l, r))
  }

  /** The part of a row that decides whether a key is accepted: unrevoked, last use left out. */
  function Live(r: Option<Record>): Option<Record> {
    if r.Some? && !r.value.revoked then Some(r.value.(lastUsedAt := None)) else None
  }

  // Which queued write may run next.

  predicate IsUpdate(w: Write) {
    w.Touch? || w.Revoke? || w.RevokeId?
  }

  /**
   Draining only ever permutes the updates: an update may overtake anything but the insert of a
   row that it revokes, an insert or a purge only updates that do not concern it.
   */
  ghost predicate MayOvertake(w: Write, p: Write) {
    match w
    case Touch(_, _) => true
    case Revoke(_) => p.Insert? ==> !Revokes(w, p.lookup, p.row)
    case RevokeId(_) => p.Insert? ==> !Revokes(w, p.lookup, p.row)
    case Insert(lookup, row) => IsUpdate(p) && !Revokes(p, lookup, row)
    case Purge(_, _) => IsUpdate(p)
  }

  ghost predicate Movable(queue: seq<Write>, i: nat)
    requires i < |queue|
  {
    forall j | 0 <= j < i :: MayOvertake(queue[i], queue[j])
  }

  function Without<T>(s: seq<T>, i: nat): seq<T>
    requires i < |s|
  {
    s[..i] + s[i + 1..]
  }

  lemma {:induction false} RowAfterConcat(ws: seq<Write>, ws': seq<Write>, l: string, r: Option<Record>)
    ensures RowAfter(ws + ws', l, r) == RowAfter(ws', l, RowAfter(ws, l, r))
  {
    if ws' == [] {
      assert ws + ws' == ws;
    } else {
      var n := |ws'| - 1;
      RowAfterConcat(ws, ws'[..n], l, r);
      assert (ws + ws')[..|ws| + n] == ws + ws'[..n];
    }
  }

  lemma LiveCongruent(w: Write, l: string, x: Option<Record>, y: Option<Record>)
    requires Live(x) == Live(y)
    ensures Live(RowEffect(w, l, x)) == Live(RowEffect(w, l, y))
  {
  }

  lemma {:induction false} LiveCongruentAfter(ws: seq<Write>, l: string, x: Option<Record>, y: Option<Record>)
    requires Live(x) == Live(y)
    ensures Live(RowAfter(ws, l, x)) == Live(RowAfter(ws, l, y))
  {
    if ws != [] {
      var n := |ws| - 1;
      LiveCongruentAfter(ws[..n], l, x, y);
      LiveCongruent(ws[n], l, RowAfter(ws[..n], l, x), RowAfter(ws[..n], l, y));
    }
  }

  lemma OvertakingOne(w: Write, p: Write, l: string, r: Option<Record>)
    requires MayOvertake(w, p)
    ensures Live(RowEffect(p, l, RowEffect(w, l, r))) == Live(RowEffect(w, l, RowEffect(p, l, r)))
  {
  }

  lemma {:induction false} OvertakingAll(w: Write, ps: seq<Write>, l: string, r: Option<Record>)
    requires forall j | 0 <= j < |ps| :: MayOvertake(w, ps[j])
    ensures Live(RowAfter(ps, l, RowEffect(w, l, r))) == Live(RowEffect(w, l, RowAfter(ps, l, r)))
  {
    if ps != [] {
      var n := |ps| - 1;
      OvertakingAll(w, ps[..n], l, r);
      var x := RowAfter(ps[..n], l, r);
      LiveCongruent(ps[n], l, RowAfter(ps[..n], l, RowEffect(w, l, r)), RowEffect(w, l, x));
      OvertakingOne(w, ps[n], l, x);
    }
  }

  /** Running a movable write first changes no live row of the final database. */
  lemma DrainingKeepsLive(queue: seq<Write>, i: nat, l: string, r: Option<Record>)
    requires i < |queue| && Movable(queue, i)
    ensures Live(RowAfter(Without(queue, i), l, RowEffect(queue[i], l, r))) == Live(RowAfter(queue, l, r))
  {
    var pre, w, post := queue[..i], queue[i], queue[i + 1..];
    OvertakingAll(w, pre, l, r);
    RowAfterConcat(pre, post, l, RowEffect(w, l, r));
    assert queue == (pre + [w]) + post;
    RowAfterConcat(pre + [w], post, l, r);
    assert (pre + [w])[..i] == pre;
    LiveCongruentAfter(post, l, RowAfter(pre, l, RowEffect(w, l, r)), RowEffect(w, l, RowAfter(pre, l, r)));
  }

  // The machine.

  /** What is known about a key that was issued at some time in the run. */
  datatype Issued = Issued(key: string, expiresAt: Option<int>, revoked: bool)

  /** Memory, database, queued writes, and the history of the run: issued keys and the latest time. */
  datatype State = State(mem: Table, db: Table, queue: seq<Write>, log: map<string, Issued>, clock: int)

  datatype Op =
    | Issue(key: string, id: string, name: string, permissions: seq<string>, expiresAt: Option<int>)
    | Validate(key: string)
    | RevokeKey(key: string)
    | RevokeByName(name: string)
    | RevokeById(id: string)
    | PurgeDead(name: string)
    | Drain(i: nat)
    | Reopen

  function NewRecord(hmac: string -> int, op: Op, now: int): Record
    requires op.Issue?
  {
    Record(op.id, op.name, hmac(op.key), op.permissions, now, None, op.expiresAt, false)
  }

  /** `validate`, but for its effect on the time of last use. */
  predicate Accepts(hmac: string -> int, t: Table, key: string, now: int) {
    var l := LookupOf(key);
    && l.Some? && l.value in t
    && var r := t[l.value];
    && !r.revoked
    && (r.expiresAt.Some? ==> now <= r.expiresAt.value)
    && hmac(key) == r.keyHash
  }

  /** The lookups that an operation revokes. */
  function Hit(mem: Table, op: Op): set<string> {
    match op
    case RevokeKey(key) => if LookupOf(key).Some? && LookupOf(key).value in mem then {LookupOf(key).value} else {}
    case RevokeByName(name) => set l | l in mem && !mem[l].revoked && mem[l].name == name
    case RevokeById(id) => set l | l in mem && mem[l].id == id
    case _ => {}
  }

  function RevokeAll(t: Table, ls: set<string>): Table {
    map l | l in t :: if l in ls then t[l].(revoked := true) else t[l]
  }

  function MarkRevoked(log: map<string, Issued>, ls: set<string>): map<string, Issued> {
    map l | l in log :: if l in ls then log[l].(revoked := true) else log[l]
  }

  /** The rows that `open` reads back. */
  function Load(db: Table): Table {
    map l | l in db && !db[l].revoked :: db[l]
  }

  /**
   Random material does not repeat, clocks do not run back, and a reopen follows a full drain. The
   queued writes are tasks of their own and may run in any order.
   */
  ghost predicate Possible(s: State, op: Op, now: int) {
    now >= s.clock &&
    match op
    case Issue(key, id, _, _, _) =>
      && LookupOf(key).Some? && LookupOf(key).value !in s.log
      && forall l | l in s.mem :: s.mem[l].id != id
    case Drain(i) => i < |s.queue|
    case Reopen => s.queue == []
    case _ => true
  }

  /** ... and draining permutes updates only. */
  ghost predicate Enabled(s: State, op: Op, now: int) {
    Possible(s, op, now) && (op.Drain? ==> Movable(s.queue, op.i))
  }

  function Step(hmac: string -> int, s0: State, op: Op, now: int): State {
    var s := s0.(clock := now);
    match op
    case Issue(key, _, _, _, expiresAt) =>
      if LookupOf(key).None? then s
      else
        var l, r := LookupOf(key).value, NewRecord(hmac, op, now);
        s.(mem := s.mem[l := r], queue := s.queue + [Insert(l, r)],
           log := s.log[l := Issued(key, expiresAt, false)])
    case Validate(key) =>
      if Accepts(hmac, s.mem, key, now) then
        var l := LookupOf(key).value;
        s.(mem := s.mem[l := s.mem[l].(lastUsedAt := Some(now))], queue := s.queue + [Touch(l, now)])
      else s
    case RevokeById(id) =>
      var ls := Hit(s.mem, op);
      if ls == {} then s
      else s.(mem := RevokeAll(s.mem, ls), queue := s.queue + [RevokeId(id)], log := MarkRevoked(s.log, ls))
    case PurgeDead(name) =>
      s.(mem := map l | l in s.mem && !Dead(s.mem[l], name, now) :: s.mem[l],
         queue := s.queue + [Purge(name, now)])
    case Drain(i) =>
      if i < |s.queue| then s.(db := Effect(s.queue[i], s.db), queue := Without(s.queue, i)) else s
    case Reopen => s.(mem := Load(s.db))
    case _ =>
      var ls := Hit(s.mem, op);
      if ls == {} then s
      else s.(mem := RevokeAll(s.mem, ls), queue := s.queue + [Revoke(ls)], log := MarkRevoked(s.log, ls))
  }

  // The invariant.

  ghost predicate UniqueIds(mem: Table) {
    forall l, m {:trigger mem[l].id, mem[m].id} | l in mem && m in mem && l != m :: mem[l].id != mem[m].id
  }

  /** Once the queue is drained, the database has the live rows of memory. */
  ghost predicate Agreement(s: State) {
    forall l {:trigger Get(s.mem, l)} :: Live(RowAfter(s.queue, l, Get(s.db, l))) == Live(Get(s.mem, l))
  }

  /** Memory only holds what the log allows, and all of the log that must still be accepted. */
  ghost predicate Accounted(hmac: string -> int, s: State) {
    && (forall l | l in s.mem ::
          && l in s.log && LookupOf(s.log[l].key) == Some(l)
          && s.mem[l].keyHash == hmac(s.log[l].key)
          && s.mem[l].expiresAt == s.log[l].expiresAt
          && (s.log[l].revoked ==> s.mem[l].revoked))
    && (forall l | l in s.log && !s.log[l].revoked && Unexpired(s.log[l].expiresAt, s.clock) ::
          l in s.mem && !s.mem[l].revoked)
  }

  predicate Unexpired(expiresAt: Option<int>, now: int) {
    expiresAt.Some? ==> now < expiresAt.value
  }

  ghost predicate Inv(hmac: string -> int, s: State) {
    UniqueIds(s.mem) && Agreement(s) && Accounted(hmac, s)
  }

  lemma QueueAppend(queue: seq<Write>, w: Write, l: string, r: Option<Record>)
    ensures RowAfter(queue + [w], l, r) == RowEffect(w, l, RowAfter(queue, l, r))
  {
    assert (queue + [w])[..|queue|] == queue;
  }

  lemma ReopenKeepsUniqueIds(hmac: string -> int, s: State, now: int)
    requires Inv(hmac, s) && Enabled(s, Reopen, now)
    ensures UniqueIds(Load(s.db))
  {
    forall l, m | l in Load(s.db) && m in Load(s.db) && l != m ensures s.db[l].id != s.db[m].id {
      assert Live(Get(s.mem, l)) == Live(Get(s.db, l)) && Live(Get(s.mem, m)) == Live(Get(s.db, m));
      assert s.mem[l].id != s.mem[m].id;
    }
  }

  lemma OtherStepKeepsUniqueIds(hmac: string -> int, s: State, op: Op, now: int)
    requires UniqueIds(s.mem) && Enabled(s, op, now) && !op.Reopen?
    ensures UniqueIds(Step(hmac, s, op, now).mem)
  {
  }

  lemma StepKeepsUniqueIds(hmac: string -> int, s: State, op: Op, now: int)
    requires Inv(hmac, s) && Enabled(s, op, now)
    ensures UniqueIds(Step(hmac, s, op, now).mem)
  {
    hide UniqueIds, Agreement, Accounted;
    if op.Reopen? {
      ReopenKeepsUniqueIds(hmac, s, now);
    } else {
      OtherStepKeepsUniqueIds(hmac, s, op, now);
    }
  }

  /** An operation queues at most one write, which does to a live row what the operation did in memory. */
  ghost predicate Mirrored(s: State, s': State, l: string) {
    && s'.db == s.db
    && (s'.queue == s.queue ==> s'.mem == s.mem)
    && (s'.queue != s.queue ==>
          && |s'.queue| == |s.queue| + 1 && s'.queue == s.queue + [s'.queue[|s.queue|]]
          && Live(Get(s'.mem, l)) == Live(RowEffect(s'.queue[|s.queue|], l, Get(s.mem, l))))
  }

  lemma RevocationIsMirrored(hmac: string -> int, s: State, op: Op, now: int, l: string)
    requires op.RevokeKey? || op.RevokeByName?
    ensures Mirrored(s, Step(hmac, s, op, now), l)
  {
  }

  lemma RevocationByIdIsMirrored(hmac: string -> int, s: State, op: Op, now: int, l: string)
    requires UniqueIds(s.mem) && op.RevokeById?
    ensures Mirrored(s, Step(hmac, s, op, now), l)
  {
  }

  lemma OtherWriteIsMirrored(hmac: string -> int, s: State, op: Op, now: int, l: string)
    requires Enabled(s, op, now) && (op.Issue? || op.Validate? || op.PurgeDead?)
    ensures Mirrored(s, Step(hmac, s, op, now), l)
  {
  }

  lemma WriteMirrorsMemory(hmac: string -> int, s: State, op: Op, now: int, l: string)
    requires UniqueIds(s.mem) && Enabled(s, op, now) && !op.Drain? && !op.Reopen?
    ensures Mirrored(s, Step(hmac, s, op, now), l)
  {
    hide Step, Mirrored;
    if op.RevokeById? {
      RevocationByIdIsMirrored(hmac, s, op, now, l);
    } else if op.RevokeKey? || op.RevokeByName? {
      RevocationIsMirrored(hmac, s, op, now, l);
    } else {
      OtherWriteIsMirrored(hmac, s, op, now, l);
    }
  }

  lemma StepKeepsAgreement(hmac: string -> int, s: State, op: Op, now: int)
    requires Inv(hmac, s) && Enabled(s, op, now)
    ensures Agreement(Step(hmac, s, op, now))
  {
    var s' := Step(hmac, s, op, now);
    forall l ensures Live(RowAfter(s'.queue, l, Get(s'.db, l))) == Live(Get(s'.mem, l)) {
      var r := Get(s.db, l);
      assert Live(RowAfter(s.queue, l, r)) == Live(Get(s.mem, l));
      if op.Drain? {
        DrainingKeepsLive(s.queue, op.i, l, r);
        EffectByRow(s.queue[op.i], s.db, l);
      } else if !op.Reopen? {
        WriteMirrorsMemory(hmac, s, op, now, l);
        if s'.queue != s.queue {
          QueueAppend(s.queue, s'.queue[|s.queue|], l, r);
          LiveCongruent(s'.queue[|s.queue|], l, RowAfter(s.queue, l, r), Get(s.mem, l));
        }
      }
    }
  }

  lemma ReopenKeepsAccounts(hmac: string -> int, s: State, now: int)
    requires Inv(hmac, s) && Enabled(s, Reopen, now)
    ensures Accounted(hmac, Step(hmac, s, Reopen, now))
  {
    var mem' := Load(s.db);
    forall l | l in mem' || Live(Get(s.mem, l)).Some?
      ensures l in mem' && l in s.mem && s.mem[l].(lastUsedAt := None) == mem'[l].(lastUsedAt := None)
    {
      assert Live(Get(s.db, l)) == Live(Get(s.mem, l));
    }
    forall l | l in s.log && !s.log[l].revoked && Unexpired(s.log[l].expiresAt, now)
      ensures l in mem' && !mem'[l].revoked
    {
      assert l in s.mem && !s.mem[l].revoked;
      assert Live(Get(s.mem, l)).Some?;
    }
  }

  /** Revoking the same lookups in memory and in the log. */
  lemma RevocationKeepsAccounts(hmac: string -> int, s: State, ls: set<string>, queue: seq<Write>, now: int)
    requires Accounted(hmac, s) && now >= s.clock
    ensures Accounted(hmac, State(RevokeAll(s.mem, ls), s.db, queue, MarkRevoked(s.log, ls), now))
  {
  }

  lemma RevokingStepKeepsAccounts(hmac: string -> int, s: State, op: Op, now: int)
    requires Accounted(hmac, s) && Enabled(s, op, now)
    requires op.RevokeKey? || op.RevokeByName? || op.RevokeById?
    ensures Accounted(hmac, Step(hmac, s, op, now))
  {
    RevocationKeepsAccounts(hmac, s, Hit(s.mem, op), Step(hmac, s, op, now).queue, now);
  }

  lemma PurgeKeepsAccounts(hmac: string -> int, s: State, op: Op, now: int)
    requires Accounted(hmac, s) && Enabled(s, op, now) && op.PurgeDead?
    ensures Accounted(hmac, Step(hmac, s, op, now))
  {
    var s' := Step(hmac, s, op, now);
    forall l | l in s'.log && !s'.log[l].revoked && Unexpired(s'.log[l].expiresAt, now)
      ensures l in s'.mem && !s'.mem[l].revoked
    {
      assert l in s.mem && !s.mem[l].revoked;
    }
  }

  lemma OtherStepKeepsAccounts(hmac: string -> int, s: State, op: Op, now: int)
    requires Accounted(hmac, s) && Enabled(s, op, now)
    requires op.Issue? || op.Validate? || op.Drain?
    ensures Accounted(hmac, Step(hmac, s, op, now))
  {
  }

  lemma StepKeepsAccounts(hmac: string -> int, s: State, op: Op, now: int)
    requires Inv(hmac, s) && Enabled(s, op, now)
    ensures Accounted(hmac, Step(hmac, s, op, now))
  {
    hide Step, Accounted;
    match op
    case Reopen => ReopenKeepsAccounts(hmac, s, now);
    case RevokeKey(_) => RevokingStepKeepsAccounts(hmac, s, op, now);
    case RevokeByName(_) => RevokingStepKeepsAccounts(hmac, s, op, now);
    case RevokeById(_) => RevokingStepKeepsAccounts(hmac, s, op, now);
    case PurgeDead(_) => PurgeKeepsAccounts(hmac, s, op, now);
    case _ => OtherStepKeepsAccounts(hmac, s, op, now);
  }

  // Runs.

  datatype Event = Event(op: Op, now: int)

  function Run(hmac: string -> int, events: seq<Event>): State {
    if events == [] then State(map[], map[], [], map[], 0)
    else
      var e := events[|events| - 1];
      Step(hmac, Run(hmac, events[..|events| - 1]), e.op, e.now)
  }

  ghost predicate Legal(hmac: string -> int, events: seq<Event>) {
    events != [] ==>
      var rest, e := events[..|events| - 1], events[|events| - 1];
      Legal(hmac, rest) && Enabled(Run(hmac, rest), e.op, e.now)
  }

  lemma {:induction false} EveryRunKeepsInv(hmac: string -> int, events: seq<Event>)
    requires Legal(hmac, events)
    ensures Inv(hmac, Run(hmac, events))
  {
    if events != [] {
      var rest, e := events[..|events| - 1], events[|events| - 1];
      EveryRunKeepsInv(hmac, rest);
      var s := Run(hmac, rest);
      StepKeepsUniqueIds(hmac, s, e.op, e.now);
      StepKeepsAgreement(hmac, s, e.op, e.now);
      StepKeepsAccounts(hmac, s, e.op, e.now);
    }
  }

  /** After any run that has drained its queue, a reopened store accepts the same keys at all times. */
  lemma ReopenedStoreAcceptsTheSame(hmac: string -> int, events: seq<Event>, key: string, now: int)
    requires Legal(hmac, events) && Run(hmac, events).queue == []
    ensures var s := Run(hmac, events); Accepts(hmac, Load(s.db), key, now) <==> Accepts(hmac, s.mem, key, now)
  {
    EveryRunKeepsInv(hmac, events);
    var s := Run(hmac, events);
    if LookupOf(key).Some? {
      var l := LookupOf(key).value;
      assert Live(Get(s.db, l)) == Live(Get(s.mem, l));
    }
  }

  ghost predicate CollisionFree(hmac: string -> int) {
    forall k, k' {:trigger hmac(k), hmac(k')} :: hmac(k) == hmac(k') ==> k == k'
  }

  /** Only an issued key that no path has revoked is ever accepted, and not past its expiry. */
  lemma AcceptedOnlyIfGranted(hmac: string -> int, events: seq<Event>, key: string, now: int)
    requires Legal(hmac, events) && CollisionFree(hmac)
    requires Accepts(hmac, Run(hmac, events).mem, key, now)
    ensures var log, l := Run(hmac, events).log, LookupOf(key).value;
      && l in log && log[l].key == key && !log[l].revoked
      && (log[l].expiresAt.Some? ==> now <= log[l].expiresAt.value)
  {
    EveryRunKeepsInv(hmac, events);
  }

  /** And such a key is accepted up to its expiry, however often dead keys have been purged. */
  lemma GrantedIsAccepted(hmac: string -> int, events: seq<Event>, l: string, now: int)
    requires Legal(hmac, events) && now >= Run(hmac, events).clock
    requires l in Run(hmac, events).log && !Run(hmac, events).log[l].revoked
    requires Unexpired(Run(hmac, events).log[l].expiresAt, now)
    ensures Accepts(hmac, Run(hmac, events).mem, Run(hmac, events).log[l].key, now)
  {
    EveryRunKeepsInv(hmac, events);
  }

  lemma RevokedEntryKept(hmac: string -> int, s: State, op: Op, now: int, l: string)
    requires Enabled(s, op, now) && l in s.log && s.log[l].revoked
    ensures l in Step(hmac, s, op, now).log && Step(hmac, s, op, now).log[l] == s.log[l]
  {
  }

  /** A revocation is never taken back. */
  lemma {:induction false} RevokedStaysRevoked(hmac: string -> int, events: seq<Event>, more: seq<Event>, l: string)
    requires Legal(hmac, events + more)
    requires l in Run(hmac, events).log && Run(hmac, events).log[l].revoked
    ensures l in Run(hmac, events + more).log && Run(hmac, events + more).log[l] == Run(hmac, events).log[l]
  {
    if more == [] {
      assert events + more == events;
    } else {
      var n := |more| - 1;
      var all, rest := events + more, events + more[..n];
      assert all[..|all| - 1] == rest && all[|all| - 1] == more[n];
      RevokedStaysRevoked(hmac, events, more[..n], l);
      RevokedEntryKept(hmac, Run(hmac, rest), more[n].op, more[n].now, l);
    }
  }

  /** Every path records the keys that it revokes. */
  lemma RevocationIsRecorded(hmac: string -> int, events: seq<Event>, op: Op, now: int, l: string)
    requires Legal(hmac, events) && l in Hit(Run(hmac, events).mem, op)
    ensures var log := Step(hmac, Run(hmac, events), op, now).log; l in log && log[l].revoked
  {
    EveryRunKeepsInv(hmac, events);
  }

  /** A key that was revoked by any path is rejected for the rest of the run. */
  lemma RevokedNeverAcceptedAgain(hmac: string -> int, events: seq<Event>, more: seq<Event>, l: string, now: int)
    requires Legal(hmac, events + more) && CollisionFree(hmac)
    requires l in Run(hmac, events).log && Run(hmac, events).log[l].revoked
    ensures !Accepts(hmac, Run(hmac, events + more).mem, Run(hmac, events).log[l].key, now)
  {
    var key := Run(hmac, events).log[l].key;
    RevokedStaysRevoked(hmac, events, more, l);
    EveryRunKeepsInv(hmac, events + more);
    if Accepts(hmac, Run(hmac, events + more).mem, key, now) {
      AcceptedOnlyIfGranted(hmac, events + more, key, now);
      LogKeysFit(hmac, events + more, l);
    }
  }

  lemma {:induction false} LogKeysFit(hmac: string -> int, events: seq<Event>, l: string)
    requires l in Run(hmac, events).log
    ensures LookupOf(Run(hmac, events).log[l].key) == Some(l)
  {
    var rest, e := events[..|events| - 1], events[|events| - 1];
    if l in Run(hmac, rest).log {
      LogKeysFit(hmac, rest, l);
    }
  }

  // What an issue asked for is what the record has.

  /** The record has what the request had, and the time of the request. */
  ghost predicate AsRequested(r: Record, e: Event) {
    && e.op.Issue?
    && r.id == e.op.id
    && r.name == e.op.name
    && r.permissions == e.op.permissions
    && r.createdAt == e.now
    && r.expiresAt == e.op.expiresAt
  }

  ghost predicate RequestedAt(hmac: string -> int, events: seq<Event>, i: nat, l: string, r: Record) {
    && i < |events| && AsRequested(r, events[i])
    && LookupOf(events[i].op.key) == Some(l) && r.keyHash == hmac(events[i].op.key)
  }

  ghost predicate Requested(hmac: string -> int, events: seq<Event>, l: string, r: Record) {
    exists i :: RequestedAt(hmac, events, i, l, r)
  }

  /** A step makes a record from its own request, or keeps all but the time of last use and the revocation. */
  lemma StepKeepsRequest(hmac: string -> int, s: State, op: Op, now: int, l: string)
    requires Agreement(s) && Enabled(s, op, now) && l in Step(hmac, s, op, now).mem
    ensures var r := Step(hmac, s, op, now).mem[l];
      || (LookupOf(if op.Issue? then op.key else "") == Some(l)
          && AsRequested(r, Event(op, now)) && r.keyHash == hmac(op.key))
      || (l in s.mem && r == s.mem[l].(lastUsedAt := r.lastUsedAt, revoked := r.revoked))
  {
    if op.Reopen? {
      assert Live(Get(s.mem, l)) == Live(Get(s.db, l));
    }
  }

  lemma {:induction false} EveryRecordWasRequested(hmac: string -> int, events: seq<Event>, l: string)
    requires Legal(hmac, events) && l in Run(hmac, events).mem
    ensures Requested(hmac, events, l, Run(hmac, events).mem[l])
  {
    var n := |events| - 1;
    var rest, e, r := events[..n], events[n], Run(hmac, events).mem[l];
    EveryRunKeepsInv(hmac, rest);
    StepKeepsRequest(hmac, Run(hmac, rest), e.op, e.now, l);
    if LookupOf(if e.op.Issue? then e.op.key else "") == Some(l) && AsRequested(r, e) && r.keyHash == hmac(e.op.key) {
      assert RequestedAt(hmac, events, n, l, r);
    } else {
      EveryRecordWasRequested(hmac, rest, l);
      var i :| RequestedAt(hmac, rest, i, l, Run(hmac, rest).mem[l]);
      assert RequestedAt(hmac, events, i, l, r);
    }
  }

  lemma {:induction false} IssuedLookupIsLogged(hmac: string -> int, events: seq<Event>, i: nat)
    requires i < |events| && events[i].op.Issue? && LookupOf(events[i].op.key).Some?
    ensures LookupOf(events[i].op.key).value in Run(hmac, events).log
  {
    var n := |events| - 1;
    if i < n {
      IssuedLookupIsLogged(hmac, events[..n], i);
    }
  }

  ghost predicate IssuesAt(events: seq<Event>, i: nat, key: string) {
    i < |events| && events[i].op.Issue? && events[i].op.key == key
  }

  /** A key is issued once. */
  lemma {:induction false} IssuedOnce(hmac: string -> int, events: seq<Event>, i: nat, j: nat)
    requires Legal(hmac, events) && i < j < |events|
    requires events[i].op.Issue? && events[j].op.Issue? && LookupOf(events[i].op.key).Some?
    ensures events[i].op.key != events[j].op.key
  {
    var n := |events| - 1;
    if j < n {
      IssuedOnce(hmac, events[..n], i, j);
    } else {
      IssuedLookupIsLogged(hmac, events[..n], i);
    }
  }

  /**
   Whenever a key is accepted, its record has the id, name, permissions, expiry and time of creation of
   the one request that issued it, through uses, purges, drains and reopens.
   */
  lemma AcceptedRecordIsAsRequested(hmac: string -> int, events: seq<Event>, key: string, now: int)
    requires Legal(hmac, events) && CollisionFree(hmac)
    requires Accepts(hmac, Run(hmac, events).mem, key, now)
    ensures exists i: nat :: IssuesAt(events, i, key)
              && AsRequested(Run(hmac, events).mem[LookupOf(key).value], events[i])
    ensures forall i: nat, j: nat | IssuesAt(events, i, key) && IssuesAt(events, j, key) :: i == j
  {
    hide Run, Legal;
    var l := LookupOf(key).value;
    EveryRecordWasRequested(hmac, events, l);
    var i :| RequestedAt(hmac, events, i, l, Run(hmac, events).mem[l]);
    assert IssuesAt(events, i, key);
    forall i: nat, j: nat | i < j && IssuesAt(events, i, key) ensures !IssuesAt(events, j, key) {
      if IssuesAt(events, j, key) {
        IssuedOnce(hmac, events, i, j);
      }
    }
  }

  // Draining in order.

  /** Every record in memory is what its row will be, to the last field, once the queue is drained. */
  ghost predicate FullAgreement(s: State) {
    forall l | l in s.mem :: RowAfter(s.queue, l, Get(s.db, l)) == Some(s.mem[l])
  }

  ghost predicate LegalInOrder(hmac: string -> int, events: seq<Event>) {
    events != [] ==>
      var rest, e := events[..|events| - 1], events[|events| - 1];
      LegalInOrder(hmac, rest) && Enabled(Run(hmac, rest), e.op, e.now) && (e.op.Drain? ==> e.op.i == 0)
  }

  lemma DrainFirst(queue: seq<Write>, l: string, r: Option<Record>)
    requires queue != []
    ensures RowAfter(Without(queue, 0), l, RowEffect(queue[0], l, r)) == RowAfter(queue, l, r)
  {
    assert queue == [queue[0]] + queue[1..] && Without(queue, 0) == queue[1..];
    RowAfterConcat([queue[0]], queue[1..], l, r);
    assert [queue[0]][..0] == [];
  }

  /** The queued write does to the row of a record that is kept exactly what the operation did in memory. */
  lemma RecordIsMirrored(hmac: string -> int, s: State, op: Op, now: int, l: string)
    requires Enabled(s, op, now) && !op.Drain? && !op.Reopen? && l in Step(hmac, s, op, now).mem
    ensures var s' := Step(hmac, s, op, now);
      && s'.db == s.db
      && (s'.queue == s.queue ==> s'.mem == s.mem)
      && (s'.queue != s.queue ==>
            && |s'.queue| == |s.queue| + 1 && s'.queue == s.queue + [s'.queue[|s.queue|]]
            && RowEffect(s'.queue[|s.queue|], l, Get(s.mem, l)) == Some(s'.mem[l])
            && (l !in s.mem ==> s'.queue[|s.queue|] == Insert(l, s'.mem[l])))
  {
  }

  lemma OrderlyStepAgrees(hmac: string -> int, s: State, op: Op, now: int)
    requires FullAgreement(s) && Enabled(s, op, now) && (op.Drain? ==> op.i == 0)
    ensures FullAgreement(Step(hmac, s, op, now))
  {
    hide RowAfter;
    var s' := Step(hmac, s, op, now);
    forall l | l in s'.mem ensures RowAfter(s'.queue, l, Get(s'.db, l)) == Some(s'.mem[l]) {
      if op.Drain? {
        EffectByRow(s.queue[0], s.db, l);
        DrainFirst(s.queue, l, Get(s.db, l));
      } else if op.Reopen? {
        NothingQueued(l, Get(s.db, l));
      } else {
        RecordIsMirrored(hmac, s, op, now, l);
        if s'.queue != s.queue {
          QueueAppend(s.queue, s'.queue[|s.queue|], l, Get(s.db, l));
        }
      }
    }
  }

  lemma NothingQueued(l: string, r: Option<Record>)
    ensures RowAfter([], l, r) == r
  {
  }

  /** With tasks run in the order in which they were queued, the database is memory written through. */
  lemma {:induction false} WrittenThrough(hmac: string -> int, events: seq<Event>)
    requires LegalInOrder(hmac, events)
    ensures var s := Run(hmac, events);
      && FullAgreement(s)
      && (s.queue == [] ==> forall l | l in s.mem :: l in s.db && s.db[l] == s.mem[l])
  {
    if events != [] {
      var rest, e := events[..|events| - 1], events[|events| - 1];
      WrittenThrough(hmac, rest);
      OrderlyStepAgrees(hmac, Run(hmac, rest), e.op, e.now);
    }
    var s := Run(hmac, events);
    forall l | l in s.mem && s.queue == [] ensures Get(s.db, l) == Some(s.mem[l]) {
      NothingQueued(l, Get(s.db, l));
    }
  }

  /**
   Three ways to revoke the key of a record in memory: by a string with the same twenty-one first
   characters, by the name of the record, or by its id.
   */
  ghost predicate RevokesRecord(op: Op, key: string, r: Record) {
    || (op.RevokeKey? && |op.key| >= 21 && |key| >= 21 && op.key[..21] == key[..21])
    || (op.RevokeByName? && op.name == r.name && !r.revoked)
    || (op.RevokeById? && op.id == r.id)
  }

  /** After any of them the key is rejected for the rest of the run. */
  lemma RevokedByAnyPath(hmac: string -> int, events: seq<Event>, op: Op, at: int, more: seq<Event>,
                         key: string, now: int)
    requires Legal(hmac, events + [Event(op, at)] + more) && CollisionFree(hmac)
    requires LookupOf(key).Some? && LookupOf(key).value in Run(hmac, events).mem
    requires RevokesRecord(op, key, Run(hmac, events).mem[LookupOf(key).value])
    ensures !Accepts(hmac, Run(hmac, events + [Event(op, at)] + more).mem, key, now)
  {
    var l, all := LookupOf(key).value, events + [Event(op, at)];
    LegalBefore(hmac, all, more);
    assert all[..|events|] == events;
    assert key[5..21] == key[..21][5..] && "agos_" == key[..5] == key[..21][..5];
    assert op.RevokeKey? ==> op.key[5..21] == op.key[..21][5..] && op.key[..5] == op.key[..21][..5];
    assert l in Hit(Run(hmac, events).mem, op);
    RevocationIsRecorded(hmac, events, op, at, l);
    RevokedStaysRevoked(hmac, all, more, l);
    if Accepts(hmac, Run(hmac, all + more).mem, key, now) {
      AcceptedOnlyIfGranted(hmac, all + more, key, now);
    }
  }

  lemma {:induction false} LegalBefore(hmac: string -> int, events: seq<Event>, more: seq<Event>)
    requires Legal(hmac, events + more)
    ensures Legal(hmac, events)
  {
    if more == [] {
      assert events + more == events;
    } else {
      assert (events + more)[..|events + more| - 1] == events + more[..|more| - 1];
      LegalBefore(hmac, events, more[..|more| - 1]);
    }
  }

  // Draining a revocation ahead of the insert of its row.

  ghost predicate NoInsert(ws: seq<Write>, l: string) {
    forall j | 0 <= j < |ws| :: ws[j].Insert? ==> ws[j].lookup != l
  }

  lemma {:induction false} RevokedStaysDead(ws: seq<Write>, l: string, r: Option<Record>)
    requires Live(r).None? && NoInsert(ws, l)
    ensures Live(RowAfter(ws, l, r)).None?
  {
    if ws != [] {
      RevokedStaysDead(ws[..|ws| - 1], l, r);
    }
  }

  lemma {:induction false} RevocationCommutes(w: Write, ps: seq<Write>, l: string, r: Option<Record>)
    requires w.Revoke? || w.RevokeId?
    requires NoInsert(ps, l)
    ensures Live(RowAfter(ps, l, RowEffect(w, l, r))) == Live(RowEffect(w, l, RowAfter(ps, l, r)))
  {
    if ps != [] {
      var n := |ps| - 1;
      RevocationCommutes(w, ps[..n], l, r);
      LiveCongruent(ps[n], l, RowAfter(ps[..n], l, RowEffect(w, l, r)), RowEffect(w, l, RowAfter(ps[..n], l, r)));
    }
  }

  /** The write ends the life of the unrevoked row under `l`. */
  predicate Kills(w: Write, l: string, row: Record) {
    Revokes(w, l, row) || (w.Purge? && Dead(row, w.name, w.now))
  }

  ghost predicate Killed(ws: seq<Write>, l: string, row: Record) {
    exists j :: 0 <= j < |ws| && Kills(ws[j], l, row)
  }

  /** An unrevoked row lives on exactly if no later write kills it. */
  lemma {:induction false} FateOfRow(ws: seq<Write>, l: string, row: Record)
    requires !row.revoked && NoInsert(ws, l)
    ensures Live(RowAfter(ws, l, Some(row))) == if Killed(ws, l, row) then None else Live(Some(row))
  {
    if ws != [] {
      var n := |ws| - 1;
      FateOfRow(ws[..n], l, row);
      if Killed(ws[..n], l, row) {
        var j :| 0 <= j < n && Kills(ws[..n][j], l, row);
        assert Kills(ws[j], l, row);
        RevokedStaysDead([ws[n]], l, RowAfter(ws[..n], l, Some(row)));
        assert [ws[n]][..0] == [];
      } else {
        forall j | 0 <= j < n ensures !Kills(ws[j], l, row) {
          assert ws[..n][j] == ws[j];
        }
        assert Killed(ws, l, row) <==> Kills(ws[n], l, row);
      }
    }
  }

  /** Nothing that happens to a row before its insert matters. */
  lemma FromInsert(ws: seq<Write>, p: nat, l: string, r: Option<Record>)
    requires p < |ws| && ws[p].Insert? && ws[p].lookup == l
    ensures RowAfter(ws, l, r) == RowAfter(ws[p + 1..], l, Some(ws[p].row))
  {
    assert ws == ws[..p + 1] + ws[p + 1..];
    RowAfterConcat(ws[..p + 1], ws[p + 1..], l, r);
    assert ws[..p + 1][..p] == ws[..p];
  }

  /**
   What an early run of the revocation at position `i` loses: the insert of a row that it is meant
   for is still queued before it, and no other write behind that insert kills the row.
   */
  ghost predicate Lost(queue: seq<Write>, i: nat, l: string)
    requires i < |queue|
  {
    exists p :: 0 <= p < i && LostAt(queue, i, l, p)
  }

  ghost predicate LostAt(queue: seq<Write>, i: nat, l: string, p: nat)
    requires i < |queue| && p < i
  {
    && queue[p].Insert? && queue[p].lookup == l
    && Revokes(queue[i], l, queue[p].row)
    && forall j | p < j < |queue| && j != i :: !Kills(queue[j], l, queue[p].row)
  }

  /** Inserted rows are unrevoked, and under lookups that occur nowhere else but in the log. */
  ghost predicate FreshRows(s: State) {
    && (forall l | l in s.db :: l in s.log)
    && (forall j | 0 <= j < |s.queue| && s.queue[j].Insert? ::
          !s.queue[j].row.revoked && s.queue[j].lookup in s.log && s.queue[j].lookup !in s.db)
    && (forall j, k | 0 <= j < k < |s.queue| && s.queue[j].Insert? && s.queue[k].Insert? ::
          s.queue[j].lookup != s.queue[k].lookup)
  }

  ghost predicate LegalInAnyOrder(hmac: string -> int, events: seq<Event>) {
    events != [] ==>
      var rest, e := events[..|events| - 1], events[|events| - 1];
      LegalInAnyOrder(hmac, rest) && Possible(Run(hmac, rest), e.op, e.now)
  }

  lemma DrainKeepsFreshRows(hmac: string -> int, s: State, op: Op, now: int)
    requires FreshRows(s) && Possible(s, op, now) && op.Drain?
    ensures FreshRows(Step(hmac, s, op, now))
  {
  }

  lemma OtherStepKeepsFreshRows(hmac: string -> int, s: State, op: Op, now: int)
    requires FreshRows(s) && Possible(s, op, now) && !op.Drain?
    ensures FreshRows(Step(hmac, s, op, now))
  {
  }

  lemma StepKeepsFreshRows(hmac: string -> int, s: State, op: Op, now: int)
    requires FreshRows(s) && Possible(s, op, now)
    ensures FreshRows(Step(hmac, s, op, now))
  {
    hide Step, FreshRows;
    if op.Drain? {
      DrainKeepsFreshRows(hmac, s, op, now);
    } else {
      OtherStepKeepsFreshRows(hmac, s, op, now);
    }
  }

  lemma {:induction false} RowsAreFresh(hmac: string -> int, events: seq<Event>)
    requires LegalInAnyOrder(hmac, events)
    ensures FreshRows(Run(hmac, events))
  {
    if events != [] {
      var rest, e := events[..|events| - 1], events[|events| - 1];
      RowsAreFresh(hmac, rest);
      StepKeepsFreshRows(hmac, Run(hmac, rest), e.op, e.now);
    }
  }

  lemma KilledWithout(ws: seq<Write>, i: nat, l: string, row: Record)
    requires i < |ws|
    ensures Killed(Without(ws, i), l, row) <==> exists j :: 0 <= j < |ws| && j != i && Kills(ws[j], l, row)
  {
    hide Kills;
    var ws' := Without(ws, i);
    if Killed(ws', l, row) {
      var j :| 0 <= j < |ws'| && Kills(ws'[j], l, row);
      var j' := if j < i then j else j + 1;
      assert ws[j'] == ws'[j];
    }
    if j :| 0 <= j < |ws| && j != i && Kills(ws[j], l, row) {
      var j' := if j < i then j else j - 1;
      assert ws'[j'] == ws[j];
    }
  }

  lemma KilledOrNot(ws: seq<Write>, i: nat, l: string, row: Record)
    requires i < |ws|
    ensures Killed(ws, l, row) <==> Kills(ws[i], l, row) || Killed(Without(ws, i), l, row)
  {
    hide Kills;
    KilledWithout(ws, i, l, row);
  }

  lemma LostBehindInsert(queue: seq<Write>, i: nat, l: string, p: nat)
    requires p < i < |queue| && queue[p].Insert? && queue[p].lookup == l
    ensures LostAt(queue, i, l, p) <==>
              Revokes(queue[i], l, queue[p].row) && !Killed(Without(queue[p + 1..], i - p - 1), l, queue[p].row)
  {
    hide Kills;
    var rest, row := queue[p + 1..], queue[p].row;
    KilledWithout(rest, i - p - 1, l, row);
    if j :| p < j < |queue| && j != i && Kills(queue[j], l, row) {
      assert rest[j - p - 1] == queue[j];
    }
  }

  /** The revocation at `i`, and the only insert under `l` at `p` before it. */
  lemma EarlyRevocationBehindInsert(queue: seq<Write>, i: nat, l: string, p: nat)
    requires p < i < |queue| && (queue[i].Revoke? || queue[i].RevokeId?)
    requires queue[p].Insert? && queue[p].lookup == l && !queue[p].row.revoked && NoInsert(queue[p + 1..], l)
    ensures Live(RowAfter(Without(queue, i), l, None)) == Live(RowAfter(queue, l, None))
            <==> !LostAt(queue, i, l, p)
  {
    hide RowAfter;
    var row, rest := queue[p].row, queue[p + 1..];
    var rest' := Without(rest, i - p - 1);
    FromInsert(queue, p, l, None);
    FromInsert(Without(queue, i), p, l, None);
    assert Without(queue, i)[p + 1..] == rest';
    FateOfRow(rest, l, row);
    FateOfRow(rest', l, row);
    KilledOrNot(rest, i - p - 1, l, row);
    LostBehindInsert(queue, i, l, p);
  }

  lemma EarlyRevocationBeforeInsert(queue: seq<Write>, i: nat, l: string, p: nat)
    requires i < p < |queue| && queue[p].Insert? && queue[p].lookup == l
    ensures RowAfter(Without(queue, i), l, None) == RowAfter(queue, l, None)
  {
    hide RowAfter;
    FromInsert(queue, p, l, None);
    FromInsert(Without(queue, i), p - 1, l, None);
    assert Without(queue, i)[p..] == queue[p + 1..];
  }

  lemma LostOnlyAtInsert(queue: seq<Write>, i: nat, l: string, p: nat)
    requires i < |queue|
    requires forall j | 0 <= j < |queue| && j != p && queue[j].Insert? :: queue[j].lookup != l
    ensures Lost(queue, i, l) <==> p < i && LostAt(queue, i, l, p)
  {
  }

  /**
   In every run, with background tasks in any order: running the revocation at position `i` next
   leaves the unrevoked rows of the drained database as they should be exactly if nothing is lost.
   */
  lemma EarlyRevocationExactly(hmac: string -> int, events: seq<Event>, i: nat, l: string)
    requires LegalInAnyOrder(hmac, events)
    requires var queue := Run(hmac, events).queue; i < |queue| && (queue[i].Revoke? || queue[i].RevokeId?)
    ensures var s := Run(hmac, events); var r := Get(s.db, l);
      Live(RowAfter(Without(s.queue, i), l, RowEffect(s.queue[i], l, r))) == Live(RowAfter(s.queue, l, r))
      <==> !Lost(s.queue, i, l)
  {
    hide RowAfter, Run, LostAt, Lost;
    RowsAreFresh(hmac, events);
    var s := Run(hmac, events);
    var queue, r := s.queue, Get(s.db, l);
    if NoInsert(queue, l) {
      EarlyRevocationOfStored(queue, i, l, r);
      LostOnlyAtInsert(queue, i, l, i);
    } else {
      var p :| 0 <= p < |queue| && queue[p].Insert? && queue[p].lookup == l;
      LostOnlyAtInsert(queue, i, l, p);
      if i < p {
        EarlyRevocationBeforeInsert(queue, i, l, p);
      } else {
        EarlyRevocationBehindInsert(queue, i, l, p);
      }
    }
  }

  lemma EarlyRevocationOfStored(queue: seq<Write>, i: nat, l: string, r: Option<Record>)
    requires i < |queue| && (queue[i].Revoke? || queue[i].RevokeId?) && NoInsert(queue, l)
    ensures Live(RowAfter(Without(queue, i), l, RowEffect(queue[i], l, r))) == Live(RowAfter(queue, l, r))
  {
    var pre, w, post := queue[..i], queue[i], queue[i + 1..];
    RowAfterConcat(pre, post, l, RowEffect(w, l, r));
    assert queue == (pre + [w]) + post;
    RowAfterConcat(pre + [w], post, l, r);
    QueueAppend(pre, w, l, r);
    RevocationCommutes(w, pre, l, r);
    LiveCongruentAfter(post, l, RowAfter(pre, l, RowEffect(w, l, r)), RowEffect(w, l, RowAfter(pre, l, r)));
  }

  /** A revoked key with both of its writes queued, before anything has reached the database. */
  lemma IssuedAndRevoked(hmac: string -> int, key: string, id: string, name: string, now: nat)
    requires LookupOf(key).Some?
    ensures var l, op := LookupOf(key).value, Op.Issue(key, id, name, [], None);
      var events, row := [Event(op, now), Event(RevokeKey(key), now)], NewRecord(hmac, op, now);
      && LegalInAnyOrder(hmac, events)
      && Run(hmac, events) == State(map[l := row.(revoked := true)], map[], [Insert(l, row), Revoke({l})],
                                    map[l := Issued(key, None, true)], now)
  {
    hide Run, LegalInAnyOrder;
    var l, op := LookupOf(key).value, Op.Issue(key, id, name, [], None);
    var row, e1, e2 := NewRecord(hmac, op, now), Event(op, now), Event(RevokeKey(key), now);
    NoEvent(hmac);
    OneMoreEvent(hmac, [], [e1]);
    assert Run(hmac, [e1]) == State(map[l := row], map[], [Insert(l, row)], map[l := Issued(key, None, false)], now);
    OneMoreEvent(hmac, [e1], [e1, e2]);
  }

  /** The database then loses the revocation, and has the row for good. */
  lemma DrainedInReverse(hmac: string -> int, s: State, l: string, row: Record, now: int)
    requires s.db == map[] && s.queue == [Insert(l, row), Revoke({l})] && !row.revoked
    ensures var s1 := Step(hmac, s, Drain(1), now); var s2 := Step(hmac, s1, Drain(0), now);
      var s3 := Step(hmac, s2, Reopen, now);
      && s1.queue == [Insert(l, row)] && s2.queue == [] && s1.clock == s2.clock == now
      && s3.mem == map[l := row] && s3.log == s.log
  {
    assert Without([Insert(l, row), Revoke({l})], 1) == [Insert(l, row)] && Without([Insert(l, row)], 0) == [];
    assert Effect(Revoke({l}), map[]) == map[] && Effect(Insert(l, row), map[]) == map[l := row];
  }

  /** Issue a key, revoke it, let the second task run first, and start again: the key is accepted. */
  lemma RevocationCanBeLost(hmac: string -> int, key: string, id: string, name: string, now: nat)
    requires LookupOf(key).Some?
    ensures var events := [Event(Issue(key, id, name, [], None), now), Event(RevokeKey(key), now),
                           Event(Drain(1), now), Event(Drain(0), now), Event(Reopen, now)];
      && LegalInAnyOrder(hmac, events)
      && LookupOf(key).value in Run(hmac, events).log && Run(hmac, events).log[LookupOf(key).value].revoked
      && Accepts(hmac, Run(hmac, events).mem, key, now)
  {
    hide Run, LegalInAnyOrder, Step;
    var l, op := LookupOf(key).value, Op.Issue(key, id, name, [], None);
    var e1, e2 := Event(op, now), Event(RevokeKey(key), now);
    var e3, e4, e5 := Event(Drain(1), now), Event(Drain(0), now), Event(Reopen, now);
    IssuedAndRevoked(hmac, key, id, name, now);
    DrainedInReverse(hmac, Run(hmac, [e1, e2]), l, NewRecord(hmac, op, now), now);
    OneMoreEvent(hmac, [e1, e2], [e1, e2, e3]);
    OneMoreEvent(hmac, [e1, e2, e3], [e1, e2, e3, e4]);
    OneMoreEvent(hmac, [e1, e2, e3, e4], [e1, e2, e3, e4, e5]);
  }

  lemma OneMoreEvent(hmac: string -> int, events: seq<Event>, all: seq<Event>)
    requires |all| == |events| + 1 && all[..|events|] == events
    ensures var e := all[|events|];
      && Run(hmac, all) == Step(hmac, Run(hmac, events), e.op, e.now)
      && (LegalInAnyOrder(hmac, all) <==>
            LegalInAnyOrder(hmac, events) && Possible(Run(hmac, events), e.op, e.now))
  {
  }

  lemma NoEvent(hmac: string -> int)
    ensures Run(hmac, []) == State(map[], map[], [], map[], 0) && LegalInAnyOrder(hmac, [])
  {
  }
}

module ApiKeyStores {
  import opened Wrappers
  import opened KeyStoreProtocol

  class ApiKeyStore {
    /** The keyed digest under the secret of this database. */
    const hmac: string -> int
    var keys: Table
    var db: Table
    /** Background writes that have not run yet. */
    var queue: seq<Write>
    ghost var log: map<string, Issued>
    ghost var clock: int

    ghost function Abs(): State
      reads this
    {
      State(keys, db, queue, log, clock)
    }

    constructor (hmac: string -> int)
      ensures Abs() == Run(hmac, []) && this.hmac == hmac
    {
      this.hmac := hmac;
      keys, db, queue, log, clock := map[], map[], [], map[], 0;
    }

    method Issue(key: string, id: string, name: string, permissions: seq<string>, expiresAt: Option<int>, now: int)
      returns (record: Record)
      requires LookupOf(key).Some?
      modifies this
      ensures Abs() == Step(hmac, old(Abs()), Op.Issue(key, id, name, permissions, expiresAt), now)
      ensures Accepts(hmac, keys, key, now) <==> (expiresAt.Some? ==> now <= expiresAt.value)
      ensures record.id == id && record.name == name && record.permissions == permissions
      ensures record.keyHash == hmac(key) && record.createdAt == now && record.expiresAt == expiresAt
      ensures record.lastUsedAt == None && !record.revoked
      ensures keys == old(keys)[key[5..21] := record] && db == old(db)
      ensures queue == old(queue) + [Insert(key[5..21], record)]
    {
      var lookup := LookupOf(key).value;
      var hash := hmac(key);
      record := Record(id, name, hash, permissions, now, None, expiresAt, false);
      keys := keys[lookup := record];
      queue := queue + [Insert(lookup, record)];
      log := log[lookup := Issued(key, expiresAt, false)];
      clock := now;
    }

    method Validate(key: string, now: int) returns (r: Option<Record>)
      modifies this
      ensures Abs() == Step(hmac, old(Abs()), Op.Validate(key), now)
      ensures r.Some? <==> Accepts(hmac, old(keys), key, now)
      ensures r.Some? ==> var was := old(keys)[key[5..21]];
                && r.value == was.(lastUsedAt := Some(now))
                && r.value.id == was.id && r.value.name == was.name && r.value.permissions == was.permissions
                && r.value.createdAt == was.createdAt && r.value.expiresAt == was.expiresAt
                && keys == old(keys)[key[5..21] := r.value]
                && queue == old(queue) + [Touch(key[5..21], now)]
      ensures r.None? ==> keys == old(keys) && queue == old(queue)
    {
      clock := now;
      if !(KEY_PREFIX <= key) {
        return None;
      }
      var hexPart := key[|KEY_PREFIX|..];
      if |hexPart| < LOOKUP_LENGTH {
        return None;
      }
      var lookup := hexPart[..LOOKUP_LENGTH];
      assert key[|KEY_PREFIX|..][..LOOKUP_LENGTH] == key[|KEY_PREFIX|..|KEY_PREFIX| + LOOKUP_LENGTH];
      if lookup !in keys {
        return None;
      }
      var record := keys[lookup];
      if record.revoked {
        return None;
      }
      if record.expiresAt.Some? && now > record.expiresAt.value {
        return None;
      }
      if hmac(key) != record.keyHash {
        return None;
      }
      keys := keys[lookup := record.(lastUsedAt := Some(now))];
      r := Some(keys[lookup]);
      queue := queue + [Touch(lookup, now)];
    }

    /** Revokes whatever key has the lookup of `key`; the rest of the string is not looked at. */
    method RevokeKey(key: string, now: int) returns (revoked: bool)
      modifies this
      ensures Abs() == Step(hmac, old(Abs()), Op.RevokeKey(key), now)
      ensures revoked <==> LookupOf(key).Some? && LookupOf(key).value in old(keys)
      ensures revoked ==> !Accepts(hmac, keys, key, now)
      ensures revoked ==> keys == old(keys)[key[5..21] := old(keys)[key[5..21]].(revoked := true)]
      ensures !revoked ==> keys == old(keys) && queue == old(queue)
    {
      clock := now;
      if LookupOf(key).None? {
        return false;
      }
      var lookup := LookupOf(key).value;
      if lookup in keys {
        keys := keys[lookup := keys[lookup].(revoked := true)];
        queue := queue + [Revoke({lookup})];
        log := MarkRevoked(log, {lookup});
        assert keys == RevokeAll(old(keys), {lookup});
        return true;
      }
      return false;
    }

    method RevokeByName(name: string, now: int)
      modifies this
      ensures Abs() == Step(hmac, old(Abs()), Op.RevokeByName(name), now)
      ensures keys.Keys == old(keys).Keys
      ensures forall l | l in keys ::
                keys[l] == if old(keys)[l].name == name then old(keys)[l].(revoked := true) else old(keys)[l]
    {
      clock := now;
      var toRevoke := set l | l in keys && !keys[l].revoked && keys[l].name == name;
      var left := toRevoke;
      while left != {}
        invariant left <= toRevoke <= keys.Keys == old(keys).Keys
        invariant keys == RevokeAll(old(keys), toRevoke - left)
        invariant db == old(db) && queue == old(queue) && log == old(log) && clock == now
        decreases left
      {
        var lookup :| lookup in left;
        keys := keys[lookup := keys[lookup].(revoked := true)];
        left := left - {lookup};
      }
      assert toRevoke - {} == toRevoke;
      if toRevoke != {} {
        queue := queue + [Revoke(toRevoke)];
        log := MarkRevoked(log, toRevoke);
      } else {
        assert RevokeAll(old(keys), {}) == old(keys);
      }
    }

    method RevokeById(id: string, now: int) returns (revoked: bool)
      requires UniqueIds(keys)
      modifies this
      ensures Abs() == Step(hmac, old(Abs()), Op.RevokeById(id), now)
      ensures revoked <==> exists l :: l in old(keys) && old(keys)[l].id == id
      ensures keys.Keys == old(keys).Keys
      ensures forall l | l in keys ::
                keys[l] == if old(keys)[l].id == id then old(keys)[l].(revoked := true) else old(keys)[l]
    {
      clock := now;
      if l :| l in keys && keys[l].id == id {
        assert Hit(keys, Op.RevokeById(id)) == {l};
        keys := keys[l := keys[l].(revoked := true)];
        queue := queue + [RevokeId(id)];
        log := MarkRevoked(log, {l});
        assert keys == RevokeAll(old(keys), {l});
        return true;
      }
      return false;
    }

    /** Removes dead records of one name from memory and queues the same for the database. */
    method PurgeDeadKeys(name: string, now: int) returns (inMemory: nat)
      modifies this
      ensures Abs() == Step(hmac, old(Abs()), Op.PurgeDead(name), now)
      ensures forall l :: l in keys <==>
                && l in old(keys)
                && !(old(keys)[l].name == name
                     && (old(keys)[l].revoked
                         || (old(keys)[l].expiresAt.Some? && old(keys)[l].expiresAt.value <= now)))
      ensures forall l | l in keys :: keys[l] == old(keys)[l]
      ensures inMemory == |old(keys)| - |keys|
    {
      clock := now;
      var kept := map l | l in keys && !Dead(keys[l], name, now) :: keys[l];
      assert keys.Keys == kept.Keys + (keys.Keys - kept.Keys);
      inMemory := |keys| - |kept|;
      keys := kept;
      queue := queue + [Purge(name, now)];
    }

    static lemma DeletedRows(t: Table, name: string, now: int)
      ensures |t| - |Effect(Purge(name, now), t)| == |t.Keys - Effect(Purge(name, now), t).Keys|
    {
      var kept := Effect(Purge(name, now), t).Keys;
      assert t.Keys == kept + (t.Keys - kept);
    }

    /**
     The caller of the purge waits for its task at position `i`, and is told the larger number of the
     rows deleted now and the records that left memory before.
     */
    method FinishPurge(i: nat, inMemory: nat, ghost now: int) returns (count: nat)
      requires i < |queue| && queue[i].Purge?
      modifies this
      ensures Abs() == Step(hmac, old(Abs()), Op.Drain(i), now)
      ensures var name, at := old(queue)[i].name, old(queue)[i].now;
        forall l :: l in db <==>
                && l in old(db)
                && !(old(db)[l].name == name
                     && (old(db)[l].revoked
                         || (old(db)[l].expiresAt.Some? && old(db)[l].expiresAt.value <= at)))
      ensures forall l | l in db :: db[l] == old(db)[l]
      ensures var deleted := old(db).Keys - db.Keys;
        count == if inMemory < |deleted| then |deleted| else inMemory
    {
      DeletedRows(db, queue[i].name, queue[i].now);
      var rows := |db|;
      DrainOne(i, now);
      rows := rows - |db|;
      count := if inMemory < rows then rows else inMemory;
    }

    /** One background task runs. */
    method DrainOne(i: nat, ghost now: int)
      requires i < |queue|
      modifies this
      ensures Abs() == Step(hmac, old(Abs()), Op.Drain(i), now)
    {
      db := Effect(queue[i], db);
      queue := Without(queue, i);
      clock := now;
    }

    /** A new process opens the database. */
    method Open(ghost now: int)
      modifies this
      ensures Abs() == Step(hmac, old(Abs()), Op.Reopen, now)
      ensures forall l :: l in keys <==> l in db && !db[l].revoked
      ensures forall l | l in keys :: keys[l] == db[l]
    {
      keys := Load(db);
      clock := now;
    }
  }
}
