/** Live agenda mutations and recovery passes over the operation log, across interruptions at any await. */
module AgendaRecovery {
  import opened Wrappers
  import opened StorageErrors
  import opened AgendaLog

  /** What a provider, and the account lookups before it, answer for one operation. */
  datatype Reply = Unavailable(error: ProviderError) | Accepted(item: Item) | Refused(error: ProviderError)

  // ----- One operation -----

  /** The payload has the shape its kind needs. */
  predicate Readable(op: Operation)
  {
    if Deletes(op.kind) then op.payload.Deletion?
    else if op.kind.TaskComplete? then op.payload.Completion?
    else op.payload.Whole?
  }

  /** Completions and deletions need the cached row they name. */
  predicate TargetMissing(log: Log, op: Operation)
  {
    match op.payload
    case Deletion(target) => target !in Table(log, op.kind)
    case Completion(target, _) => target !in Table(log, op.kind)
    case _ => false
  }

  function RecoveryError(error: StorageError): ProviderError { if error.NotFound? then Missing else Temporary }

  function Recovered(result: Result<Log, StorageError>): Result<Log, ProviderError>
  {
    match result case Ok(log) => Ok(log) case Err(error) => Err(RecoveryError(error))
  }

  /** The provider did what was asked; a deletion that finds nothing is done. */
  predicate Carried(op: Operation, reply: Reply)
  {
    reply.Accepted? || (Deletes(op.kind) && reply == Refused(Missing))
  }

  /** Bringing the cache in line with what the provider carried out. */
  function Commit(log: Log, op: Operation, reply: Reply, now: int): Result<Log, StorageError>
    requires Readable(op) && Carried(op, reply)
  {
    if Deletes(op.kind) then CommitDelete(log, op.id, OnEvents(op.kind), op.payload.target, now)
    else CommitUpsert(log, op.id, OnEvents(op.kind), reply.item, now)
  }

  /** The recovery attempt of an operation that is not a create. `dbOk` is false when SQLite fails. */
  function Attempt(log: Log, op: Operation, reply: Reply, dbOk: bool, now: int): Result<Log, ProviderError>
  {
    if reply.Unavailable? then Err(reply.error)
    else if !Readable(op) then Err(Other)
    else if op.kind.TaskComplete? && TargetMissing(log, op) then Err(Missing)
    else if Deletes(op.kind) && TargetMissing(log, op) then
      if dbOk then Recovered(Finish(log, op.id, None, now)) else Err(Temporary)
    else if !Carried(op, reply) then Err(reply.error)
    else if dbOk then Recovered(Commit(log, op, reply, now)) else Err(Temporary)
  }

  /** Whether recovery reaches the provider for the operation. */
  predicate AsksProvider(log: Log, op: Operation, reply: Reply)
  {
    !Creates(op.kind) && !reply.Unavailable? && Readable(op) && !TargetMissing(log, op)
  }

  predicate Retryable(kind: Kind, error: ProviderError)
  {
    !Creates(kind) && (error.Authentication? || error.Temporary?)
  }

  function OrSame(result: Result<Log, StorageError>, log: Log): Log { if result.Ok? then result.value else log }

  /** An error is recorded by deferring the operation or by finishing it. */
  function Recorded(log: Log, op: Operation, error: ProviderError, now: int): Result<Log, StorageError>
  {
    if Retryable(op.kind, error) then Defer(log, op.id, error, now) else Finish(log, op.id, Some(error), now)
  }

  function RecordError(log: Log, op: Operation, error: ProviderError, now: int): Log
  {
    OrSame(Recorded(log, op, error, now), log)
  }

  datatype Outcome = Outcome(log: Log, blocks: bool)

  /** An interrupted create is never replayed. */
  function AttemptOf(log: Log, op: Operation, reply: Reply, dbOk: bool, now: int): Result<Log, ProviderError>
  {
    if Creates(op.kind) then Err(Other) else Attempt(log, op, reply, dbOk, now)
  }

  /** What a recovery pass does with one operation. */
  function Resolve(log: Log, op: Operation, reply: Reply, dbOk: bool, now: int): Outcome
  {
    match AttemptOf(log, op, reply, dbOk, now)
    case Ok(log') => Outcome(log', false)
    case Err(error) => Outcome(RecordError(log, op, error, now), Retryable(op.kind, error))
  }

  /** What a live mutation does with the provider's answer. A failed commit leaves the operation pending. */
  function Settle(log: Log, op: Operation, reply: Reply, dbOk: bool, now: int): Log
    requires Readable(op)
  {
    if Carried(op, reply) then (if dbOk then OrSame(Commit(log, op, reply, now), log) else log)
    else RecordError(log, op, reply.error, now)
  }

  predicate Recent(op: Operation, cutoff: int) { op.attemptedAt.Some? && op.attemptedAt.value > cutoff }

  /** A log in which only one operation may differ. */
  predicate SameExcept(log: Log, log': Log, id: string)
  {
    && |log'.operations| == |log.operations|
    && forall k :: 0 <= k < |log.operations| ==>
      && log'.operations[k].id == log.operations[k].id
      && (log.operations[k].id != id ==> log'.operations[k] == log.operations[k])
  }

  lemma SamePosition(log: Log, log': Log, id: string, other: string)
    requires SameExcept(log, log', id)
    ensures Position(log'.operations, other) == Position(log.operations, other)
    ensures DistinctIds(log.operations) ==> DistinctIds(log'.operations)
  {
    var p, q := Position(log.operations, other), Position(log'.operations, other);
    assert p < |log.operations| ==> log'.operations[p].id == other;
    assert q < |log.operations| ==> log.operations[q].id == other;
  }

  lemma FrameGet(log: Log, log': Log, id: string, other: string)
    requires SameExcept(log, log', id)
    ensures Known(log', other) == Known(log, other)
    ensures Known(log, other) && other != id ==> Get(log', other) == Get(log, other)
  {
    SamePosition(log, log', id, other);
  }

  predicate Terminal(phase: Phase) { !phase.Pending? }

  /** The operation is in the log as the list gave it. */
  predicate Listed(log: Log, op: Operation) { Known(log, op.id) && Get(log, op.id) == op && op.phase.Pending? }

  predicate CacheKept(log: Log, log': Log) { log'.tasks == log.tasks && log'.events == log.events }

  predicate OtherKept(log: Log, log': Log, kind: Kind)
  {
    if OnEvents(kind) then log'.tasks == log.tasks else log'.events == log.events
  }

  /** The tables after the operation took effect. */
  predicate Reflected(log: Log, log': Log, op: Operation, reply: Reply)
  {
    && OtherKept(log, log', op.kind)
    && (if Deletes(op.kind)
        then op.payload.Deletion? && Table(log', op.kind) == Table(log, op.kind) - {op.payload.target}
        else reply.Accepted? && Table(log', op.kind) == Table(log, op.kind)[reply.item.id := reply.item])
  }

  /** Only the operation's own row changes, and the tables move exactly when it moves to succeeded. */
  predicate MovesTogether(log: Log, log': Log, op: Operation, reply: Reply)
  {
    && SameExcept(log, log', op.id) && Known(log', op.id)
    && Get(log', op.id).kind == op.kind && Get(log', op.id).account == op.account
    && (Get(log', op.id).phase.Succeeded? ==> Reflected(log, log', op, reply))
    && (!Get(log', op.id).phase.Succeeded? ==> CacheKept(log, log'))
  }

  lemma PutMoves(log: Log, op: Operation, op': Operation, reply: Reply)
    requires Listed(log, op) && op'.id == op.id && op'.kind == op.kind && op'.account == op.account
    requires !op'.phase.Succeeded?
    ensures MovesTogether(log, Put(log, op'), op, reply) && Get(Put(log, op'), op.id) == op'
  {
    SamePosition(log, Put(log, op'), op.id, op.id);
  }

  lemma RecordErrorMoves(log: Log, op: Operation, error: ProviderError, now: int, reply: Reply)
    requires Listed(log, op)
    ensures var log' := RecordError(log, op, error, now);
      MovesTogether(log, log', op, reply)
      && Get(log', op.id).phase == if Retryable(op.kind, error) then Pending else Failed
  {
    if Retryable(op.kind, error) {
      PutMoves(log, op, op.(attemptedAt := Some(now), error := Some(error)), reply);
    } else {
      PutMoves(log, op, op.(phase := Failed, attemptedAt := Some(now), error := Some(error)), reply);
    }
  }

  /** The cache change and the move to succeeded happen together or not at all. */
  lemma CommitMoves(log: Log, op: Operation, reply: Reply, now: int)
    requires Listed(log, op) && Readable(op) && Carried(op, reply)
    ensures match Commit(log, op, reply, now)
      case Ok(log') => MovesTogether(log, log', op, reply) && Get(log', op.id).phase.Succeeded?
      case Err(error) => error == if Deletes(op.kind) then NotFound else Sqlite
  {
    var result := Commit(log, op, reply, now);
    if result.Ok? {
      SamePosition(log, result.value, op.id, op.id);
    }
  }

  lemma FinishMoves(log: Log, op: Operation, reply: Reply, now: int)
    requires Listed(log, op) && Deletes(op.kind) && op.payload.Deletion? && TargetMissing(log, op)
    ensures match Finish(log, op.id, None, now)
      case Ok(log') => MovesTogether(log, log', op, reply) && Get(log', op.id).phase.Succeeded?
      case Err(_) => false
  {
    var result := Finish(log, op.id, None, now);
    SamePosition(log, result.value, op.id, op.id);
    assert Table(log, op.kind) - {op.payload.target} == Table(log, op.kind);
  }

  lemma ResolveMoves(log: Log, op: Operation, reply: Reply, dbOk: bool, now: int)
    requires Listed(log, op)
    ensures var out := Resolve(log, op, reply, dbOk, now);
      MovesTogether(log, out.log, op, reply)
      && (out.blocks <==> Get(out.log, op.id).phase.Pending?)
      && (Creates(op.kind) ==> Get(out.log, op.id).phase.Failed?)
      && (Get(out.log, op.id).phase.Succeeded? <==> AttemptOf(log, op, reply, dbOk, now).Ok?)
  {
    var result := AttemptOf(log, op, reply, dbOk, now);
    if result.Err? {
      RecordErrorMoves(log, op, result.error, now, reply);
    } else if TargetMissing(log, op) {
      FinishMoves(log, op, reply, now);
    } else {
      CommitMoves(log, op, reply, now);
    }
  }

  lemma SettleMoves(log: Log, op: Operation, reply: Reply, dbOk: bool, now: int)
    requires Listed(log, op) && Readable(op)
    ensures MovesTogether(log, Settle(log, op, reply, dbOk, now), op, reply)
  {
    if Carried(op, reply) {
      CommitMoves(log, op, reply, now);
      PutMoves(log, op, op, reply);
      assert Put(log, op) == log;
    } else {
      RecordErrorMoves(log, op, reply.error, now, reply);
    }
  }

  // ----- The daemon: one task at a time under account_mutations -----

  datatype Call = Call(id: string, kind: Kind)

  datatype Busy =
    | Idle
    | Calling(op: Operation)
    | Answered(op: Operation, reply: Reply)
    | Pass(
        before: Log, filter: Option<string>, listed: seq<Operation>, next: nat, cutoff: int, blocked: set<string>,
        heard: Option<Reply>)

  datatype State = State(log: Log, busy: Busy, calls: seq<Call>, used: set<string>)

  const INITIAL := State(Log([], map[], map[], 0), Idle, [], {})

  datatype Move =
    | Begin(id: string, kind: Kind, account: string, payload: Payload)   // a live mutation queues its operation
    | CallProvider(reply: Reply)
    | SettleLive(dbOk: bool, now: int)
    | StartPass(filter: Option<string>, now: int)
    | Skip
    | Ask(reply: Reply)
    | ResolveNext(dbOk: bool, now: int)
    | Interrupt                                                           // crash, shutdown, or a cancelled request
    | Elsewhere(removed: Option<string>, tasks: map<string, Item>, events: map<string, Item>)

  predicate Blocked(b: Busy)
    requires b.Pass? && b.next < |b.listed|
  {
    b.listed[b.next].account in b.blocked
  }

  predicate Enabled(s: State, move: Move)
  {
    match move
    case Begin(id, kind, account, payload) =>
      s.busy.Idle? && id !in s.used && Queue(s.log, id, kind, account, payload).Ok?
      && Readable(Operation(id, kind, account, payload, Pending, None, None))
    case CallProvider(reply) => s.busy.Calling? && !reply.Unavailable?
    case SettleLive(_, _) => s.busy.Answered? && Readable(s.busy.op)
    case StartPass(_, _) => s.busy.Idle?
    case Skip =>
      s.busy.Pass? && s.busy.next < |s.busy.listed| && s.busy.heard.None?
      && (Blocked(s.busy) || Recent(s.busy.listed[s.busy.next], s.busy.cutoff))
    case Ask(_) =>
      s.busy.Pass? && s.busy.next < |s.busy.listed| && s.busy.heard.None?
      && !Blocked(s.busy) && !Recent(s.busy.listed[s.busy.next], s.busy.cutoff)
      && !Creates(s.busy.listed[s.busy.next].kind)
    case ResolveNext(_, _) =>
      s.busy.Pass? && s.busy.next < |s.busy.listed|
      && !Blocked(s.busy) && !Recent(s.busy.listed[s.busy.next], s.busy.cutoff)
      && (s.busy.heard.Some? || Creates(s.busy.listed[s.busy.next].kind))
    case Interrupt => true
    case Elsewhere(_, _, _) => s.busy.Idle?
  }

  /** Removing an account deletes its operations; every other writer of the tables leaves the log alone. */
  function Keep(operations: seq<Operation>, removed: Option<string>): seq<Operation>
  {
    if operations == [] then []
    else
      var last := operations[|operations| - 1];
      Keep(operations[..|operations| - 1], removed) + if removed == Some(last.account) then [] else [last]
  }

  function ReplyOf(b: Busy): Reply
    requires b.Pass?
  {
    if b.heard.Some? then b.heard.value else Unavailable(Other)
  }

  function Step(s: State, move: Move): State
    requires Enabled(s, move)
  {
    match move
    case Begin(id, kind, account, payload) =>
      s.(log := Queue(s.log, id, kind, account, payload).value, used := s.used + {id},
         busy := Calling(Operation(id, kind, account, payload, Pending, None, None)))
    case CallProvider(reply) =>
      s.(calls := s.calls + [Call(s.busy.op.id, s.busy.op.kind)], busy := Answered(s.busy.op, reply))
    case SettleLive(dbOk, now) =>
      s.(log := Settle(s.log, s.busy.op, s.busy.reply, dbOk, now), busy := Idle)
    case StartPass(filter, now) =>
      s.(busy := Pass(s.log, filter, ListPending(s.log.operations, filter), 0, now - AGENDA_RETRY_BACKOFF_MS, {}, None))
    case Skip =>
      s.(busy := s.busy.(next := s.busy.next + 1, blocked := s.busy.blocked + {s.busy.listed[s.busy.next].account}))
    case Ask(reply) =>
      var op := s.busy.listed[s.busy.next];
      s.(calls := if AsksProvider(s.log, op, reply) then s.calls + [Call(op.id, op.kind)] else s.calls,
         busy := s.busy.(heard := Some(reply)))
    case ResolveNext(dbOk, now) =>
      var op := s.busy.listed[s.busy.next];
      var out := Resolve(s.log, op, ReplyOf(s.busy), dbOk, now);
      s.(log := out.log,
         busy := s.busy.(next := s.busy.next + 1, heard := None,
                         blocked := if out.blocks then s.busy.blocked + {op.account} else s.busy.blocked))
    case Interrupt => s.(busy := Idle)
    case Elsewhere(removed, tasks, events) =>
      s.(log := s.log.(operations := Keep(s.log.operations, removed), tasks := tasks, events := events))
  }

  // ----- Invariant -----

  function CreateCalls(calls: seq<Call>, id: string): nat
  {
    if calls == [] then 0
    else
      var last := calls[|calls| - 1];
      CreateCalls(calls[..|calls| - 1], id) + if last.id == id && Creates(last.kind) then 1 else 0
  }

  lemma CreateCallsSnoc(calls: seq<Call>, call: Call, id: string)
    ensures CreateCalls(calls + [call], id) ==
      CreateCalls(calls, id) + if call.id == id && Creates(call.kind) then 1 else 0
  {
    assert (calls + [call])[..|calls|] == calls;
  }

  ghost predicate CallsSound(s: State)
  {
    && (forall id :: CreateCalls(s.calls, id) <= 1)
    && (forall id :: id !in s.used ==> CreateCalls(s.calls, id) == 0)
    && (s.busy.Calling? ==> CreateCalls(s.calls, s.busy.op.id) == 0)
  }

  ghost predicate LogSound(s: State)
  {
    && DistinctIds(s.log.operations)
    && (forall k :: 0 <= k < |s.log.operations| ==> s.log.operations[k].id in s.used)
    && (s.busy.Calling? ==> Listed(s.log, s.busy.op) && Readable(s.busy.op))
    && (s.busy.Answered? ==> Listed(s.log, s.busy.op) && Readable(s.busy.op) && !s.busy.reply.Unavailable?)
  }

  predicate StillPending(log: Log, op: Operation) { Known(log, op.id) && Get(log, op.id).phase.Pending? }

  /** Per account a pass has settled the beginning of the list, in order, and stopped at the first operation it could
      not settle. */
  ghost predicate PassSound(log: Log, listed: seq<Operation>, next: nat, blocked: set<string>)
  {
    && next <= |listed| && |listed| <= MAX_RECOVERY_OPERATIONS
    && (forall i, j :: 0 <= i < j < |listed| ==> listed[i].id != listed[j].id)
    && (forall i :: 0 <= i < |listed| ==> Known(log, listed[i].id))
    && (forall i :: next <= i < |listed| ==> Listed(log, listed[i]))
    && (forall i :: 0 <= i < next && StillPending(log, listed[i]) ==> listed[i].account in blocked)
    && (forall i, j ::
          0 <= i < j < |listed| && listed[i].account == listed[j].account && i < next && StillPending(log, listed[i])
          ==> Listed(log, listed[j]))
  }

  /** A pass leaves alone every operation it did not list. */
  ghost predicate PassTracks(before: Log, filter: Option<string>, log: Log, listed: seq<Operation>)
  {
    && DistinctIds(before.operations) && listed == ListPending(before.operations, filter)
    && |log.operations| == |before.operations|
    && forall k :: 0 <= k < |before.operations| ==>
      && log.operations[k].id == before.operations[k].id
      && (before.operations[k] !in listed ==> log.operations[k] == before.operations[k])
  }

  ghost predicate Inv(s: State)
  {
    CallsSound(s) && LogSound(s)
    && (s.busy.Pass? ==> PassTracks(s.busy.before, s.busy.filter, s.log, s.busy.listed))
    && (s.busy.Pass? ==> PassSound(s.log, s.busy.listed, s.busy.next, s.busy.blocked))
  }

  lemma {:induction false} KeepPhases(operations: seq<Operation>, removed: Option<string>)
    requires DistinctIds(operations)
    ensures DistinctIds(Keep(operations, removed))
    ensures forall op :: op in Keep(operations, removed) ==> op in operations
  {
    if operations != [] {
      var shorter := operations[..|operations| - 1];
      KeepPhases(shorter, removed);
      assert forall op :: op in shorter ==> op.id != operations[|operations| - 1].id;
    }
  }

  lemma StepKeepsCalls(s: State, move: Move)
    requires Inv(s) && Enabled(s, move)
    ensures CallsSound(Step(s, move))
  {
    var t := Step(s, move);
    forall id ensures CreateCalls(t.calls, id) <= 1 && (id !in t.used ==> CreateCalls(t.calls, id) == 0) {
      if move.CallProvider? {
        CreateCallsSnoc(s.calls, Call(s.busy.op.id, s.busy.op.kind), id);
        assert s.busy.op.id in s.used;
      } else if move.Ask? {
        CreateCallsSnoc(s.calls, Call(s.busy.listed[s.busy.next].id, s.busy.listed[s.busy.next].kind), id);
      }
    }
  }

  lemma StepKeepsLog(s: State, move: Move)
    requires Inv(s) && Enabled(s, move)
    ensures LogSound(Step(s, move))
  {
    match move
    case Begin(id, kind, account, payload) =>
      var t := Step(s, move);
      assert t.log.operations[..|s.log.operations|] == s.log.operations;
      PositionOf(t.log.operations, t.busy.op);
    case SettleLive(dbOk, now) =>
      SettleMoves(s.log, s.busy.op, s.busy.reply, dbOk, now);
      SamePosition(s.log, Step(s, move).log, s.busy.op.id, s.busy.op.id);
    case ResolveNext(dbOk, now) =>
      var op := s.busy.listed[s.busy.next];
      ResolveMoves(s.log, op, ReplyOf(s.busy), dbOk, now);
      SamePosition(s.log, Step(s, move).log, op.id, op.id);
    case Elsewhere(removed, _, _) =>
      KeepPhases(s.log.operations, removed);
      var kept := Step(s, move).log.operations;
      assert forall op :: op in s.log.operations ==> op.id in s.used;
      assert forall k :: 0 <= k < |kept| ==> kept[k] in kept && kept[k] in s.log.operations;
    case _ =>
  }

  /** Settling the next operation of an account that is not blocked. */
  lemma PassAdvances(
      log: Log, log': Log, listed: seq<Operation>, next: nat, blocked: set<string>, blocked': set<string>)
    requires PassSound(log, listed, next, blocked) && next < |listed| && listed[next].account !in blocked
    requires forall i :: 0 <= i < |listed| ==> Known(log', listed[i].id)
    requires forall i :: 0 <= i < |listed| && i != next ==> Get(log', listed[i].id) == Get(log, listed[i].id)
    requires blocked <= blocked' && (StillPending(log', listed[next]) ==> listed[next].account in blocked')
    ensures PassSound(log', listed, next + 1, blocked')
  {
    forall i | 0 <= i < |listed| && i != next
      ensures StillPending(log', listed[i]) == StillPending(log, listed[i])
      ensures Listed(log', listed[i]) == Listed(log, listed[i])
    {
    }
  }

  lemma PassKeepsTrack(before: Log, filter: Option<string>, log: Log, log': Log, listed: seq<Operation>, op: Operation)
    requires PassTracks(before, filter, log, listed) && op in listed && SameExcept(log, log', op.id)
    requires DistinctIds(log.operations) && Listed(before, op)
    ensures PassTracks(before, filter, log', listed)
  {
    forall k | 0 <= k < |before.operations| && before.operations[k] !in listed
      ensures log'.operations[k] == before.operations[k]
    {
      PositionOf(before.operations, before.operations[k]);
    }
  }

  lemma ResolveKeepsPass(s: State, dbOk: bool, now: int)
    requires Inv(s) && Enabled(s, ResolveNext(dbOk, now))
    ensures var t := Step(s, ResolveNext(dbOk, now));
      PassTracks(t.busy.before, t.busy.filter, t.log, t.busy.listed)
      && PassSound(t.log, t.busy.listed, t.busy.next, t.busy.blocked)
  {
    var t, listed, next := Step(s, ResolveNext(dbOk, now)), s.busy.listed, s.busy.next;
    ResolveMoves(s.log, listed[next], ReplyOf(s.busy), dbOk, now);
    forall i | 0 <= i < |listed|
      ensures Known(t.log, listed[i].id) && (i != next ==> Get(t.log, listed[i].id) == Get(s.log, listed[i].id))
    {
      FrameGet(s.log, t.log, listed[next].id, listed[i].id);
    }
    PassAdvances(s.log, t.log, listed, next, s.busy.blocked, t.busy.blocked);
    ListIsPrefix(s.busy.before, s.busy.filter, listed);
    PassKeepsTrack(s.busy.before, s.busy.filter, s.log, t.log, listed, listed[next]);
  }

  lemma PassSkips(log: Log, listed: seq<Operation>, next: nat, blocked: set<string>)
    requires PassSound(log, listed, next, blocked) && next < |listed|
    ensures PassSound(log, listed, next + 1, blocked + {listed[next].account})
  {
  }

  lemma StepKeepsInv(s: State, move: Move)
    requires Inv(s) && Enabled(s, move)
    ensures Inv(Step(s, move))
  {
    StepKeepsCalls(s, move);
    StepKeepsLog(s, move);
    if move.ResolveNext? {
      ResolveKeepsPass(s, move.dbOk, move.now);
    } else if move.StartPass? {
      ListIsPrefix(s.log, move.filter, ListPending(s.log.operations, move.filter));
    } else if move.Skip? {
      PassSkips(s.log, s.busy.listed, s.busy.next, s.busy.blocked);
    }
  }

  predicate IsRun(run: seq<State>, moves: seq<Move>)
  {
    && |run| == |moves| + 1 && run[0] == INITIAL
    && forall i :: 0 <= i < |moves| ==> Enabled(run[i], moves[i]) && run[i + 1] == Step(run[i], moves[i])
  }

  lemma {:induction false} InvHolds(run: seq<State>, moves: seq<Move>, k: nat)
    requires IsRun(run, moves) && k < |run|
    ensures Inv(run[k])
  {
    if k > 0 {
      InvHolds(run, moves, k - 1);
      StepKeepsInv(run[k - 1], moves[k - 1]);
    }
  }

  // ----- Main results -----

  /** Over every run with any number of crashes, cancelled requests and recovery passes, the provider is asked to
      create an operation's item at most once. */
  lemma CreateCalledOnce(run: seq<State>, moves: seq<Move>, k: nat, id: string)
    requires IsRun(run, moves) && k < |run|
    ensures CreateCalls(run[k].calls, id) <= 1
  {
    InvHolds(run, moves, k);
  }

  lemma StepAbsorbs(s: State, move: Move, id: string)
    requires Inv(s) && Enabled(s, move) && id in s.used
    ensures id in Step(s, move).used
    ensures PhaseOf(s.log, id) == None ==> PhaseOf(Step(s, move).log, id) == None
    ensures PhaseOf(s.log, id).Some? && Terminal(PhaseOf(s.log, id).value) ==>
      PhaseOf(Step(s, move).log, id) in {None, PhaseOf(s.log, id)}
  {
    var t := Step(s, move);
    match move
    case Begin(other, _, _, _) =>
      if Known(s.log, id) {
        assert t.log.operations[Position(s.log.operations, id)].id == id;
        LogPositions(s.log, t.log, id);
      }
    case SettleLive(dbOk, now) =>
      SettleMoves(s.log, s.busy.op, s.busy.reply, dbOk, now);
      FrameGet(s.log, t.log, s.busy.op.id, id);
    case ResolveNext(dbOk, now) =>
      var op := s.busy.listed[s.busy.next];
      ResolveMoves(s.log, op, ReplyOf(s.busy), dbOk, now);
      FrameGet(s.log, t.log, op.id, id);
    case Elsewhere(removed, _, _) =>
      KeepPhases(s.log.operations, removed);
      if Known(t.log, id) {
        assert Get(t.log, id) in t.log.operations && Get(t.log, id) in s.log.operations;
        PositionOf(s.log.operations, Get(t.log, id));
      }
    case _ =>
  }

  lemma LogPositions(log: Log, log': Log, id: string)
    requires log.operations <= log'.operations && Known(log, id)
    ensures Position(log'.operations, id) == Position(log.operations, id)
  {
    var p, q := Position(log.operations, id), Position(log'.operations, id);
    assert log'.operations[p] == log.operations[p];
    assert q < |log.operations| ==> log'.operations[q] == log.operations[q];
  }

  lemma {:induction false} AbsorbsFrom(run: seq<State>, moves: seq<Move>, i: nat, j: nat, id: string)
    requires IsRun(run, moves) && i <= j < |run| && id in run[i].used
    ensures id in run[j].used
    ensures PhaseOf(run[i].log, id) == None ==> PhaseOf(run[j].log, id) == None
    ensures PhaseOf(run[i].log, id).Some? && Terminal(PhaseOf(run[i].log, id).value) ==>
      PhaseOf(run[j].log, id) in {None, PhaseOf(run[i].log, id)}
  {
    if i < j {
      AbsorbsFrom(run, moves, i, j - 1, id);
      InvHolds(run, moves, j - 1);
      StepAbsorbs(run[j - 1], moves[j - 1], id);
    }
  }

  /** An operation that succeeded or failed keeps that state for as long as it exists. */
  lemma TerminalIsFinal(run: seq<State>, moves: seq<Move>, i: nat, j: nat, id: string)
    requires IsRun(run, moves) && i <= j < |run| && Known(run[i].log, id) && Terminal(Get(run[i].log, id).phase)
    ensures Known(run[j].log, id) ==> Get(run[j].log, id).phase == Get(run[i].log, id).phase
  {
    InvHolds(run, moves, i);
    AbsorbsFrom(run, moves, i, j, id);
  }

  function Current(b: Busy): Operation
    requires b.Answered? || (b.Pass? && b.next < |b.listed|)
  {
    if b.Answered? then b.op else b.listed[b.next]
  }

  /** Apart from writers outside the log, the tables change only in the step that moves an operation to succeeded, and
      then they change by exactly what the provider carried out. */
  lemma CacheMovesWithLog(run: seq<State>, moves: seq<Move>, k: nat)
    requires IsRun(run, moves) && k < |moves| && !moves[k].Elsewhere?
    ensures var s, t := run[k], run[k + 1];
      if moves[k].SettleLive? then MovesTogether(s.log, t.log, Current(s.busy), s.busy.reply)
      else if moves[k].ResolveNext? then MovesTogether(s.log, t.log, Current(s.busy), ReplyOf(s.busy))
      else CacheKept(s.log, t.log) && s.log.operations <= t.log.operations
  {
    InvHolds(run, moves, k);
    var s := run[k];
    if moves[k].SettleLive? {
      SettleMoves(s.log, s.busy.op, s.busy.reply, moves[k].dbOk, moves[k].now);
    } else if moves[k].ResolveNext? {
      ResolveMoves(s.log, Current(s.busy), ReplyOf(s.busy), moves[k].dbOk, moves[k].now);
    }
  }

  /** At any point of a pass, interrupted or not: when it has touched an operation, every pending operation of the same
      account that stood before it in the log is settled for good. So a pass handles per account a beginning of the
      pending operations, in row order, all terminal except possibly the last. */
  lemma PassTakesPrefix(run: seq<State>, moves: seq<Move>, k: nat, x: Operation, y: Operation)
    requires IsRun(run, moves) && k < |run| && run[k].busy.Pass?
    requires var b := run[k].busy;
      x in b.before.operations && y in b.before.operations && x.account == y.account
      && Matches(x, b.filter) && Matches(y, b.filter)
      && Position(b.before.operations, x.id) < Position(b.before.operations, y.id)
    requires Known(run[k].log, y.id) && Get(run[k].log, y.id) != y
    ensures Known(run[k].log, x.id) && Terminal(Get(run[k].log, x.id).phase)
  {
    InvHolds(run, moves, k);
    var b := run[k].busy;
    ListIsPrefix(b.before, b.filter, b.listed);
    TrackedPosition(b.before, b.filter, run[k].log, b.listed, y);
    EarlierListed(b.before, b.filter, b.listed, x, y);
    SettledBefore(run[k].log, b.listed, b.next, b.blocked, x, y, b.before.operations);
  }

  lemma EarlierListed(before: Log, filter: Option<string>, listed: seq<Operation>, x: Operation, y: Operation)
    requires DistinctIds(before.operations) && listed == ListPending(before.operations, filter)
    requires x in before.operations && Matches(x, filter) && y in listed
    requires Position(before.operations, x.id) < Position(before.operations, y.id)
    ensures x in listed
  {
    ListIsPrefix(before, filter, listed);
    var j :| 0 <= j < |listed| && listed[j] == y;
  }

  lemma SettledBefore(log: Log, listed: seq<Operation>, next: nat, blocked: set<string>, x: Operation, y: Operation,
                      operations: seq<Operation>)
    requires PassSound(log, listed, next, blocked) && x in listed && y in listed && x.account == y.account
    requires forall i, j :: 0 <= i < j < |listed| ==>
      Position(operations, listed[i].id) < Position(operations, listed[j].id)
    requires Position(operations, x.id) < Position(operations, y.id) && Known(log, y.id) && Get(log, y.id) != y
    ensures Known(log, x.id) && Terminal(Get(log, x.id).phase)
  {
    var i :| 0 <= i < |listed| && listed[i] == x;
    var j :| 0 <= j < |listed| && listed[j] == y;
    assert !Listed(log, listed[j]);
    assert i < j && j < next;
  }

  lemma TrackedPosition(before: Log, filter: Option<string>, log: Log, listed: seq<Operation>, op: Operation)
    requires PassTracks(before, filter, log, listed)
    requires op in before.operations && Known(log, op.id) && Get(log, op.id) != op
    ensures op in listed
  {
    PositionOf(before.operations, op);
    var p := Position(before.operations, op.id);
    var q := Position(log.operations, op.id);
    assert before.operations[q].id == op.id && log.operations[p].id == op.id;
  }

  /** A pass that ran to its end has settled every listed operation of the accounts it did not have to leave, the
      creates among them as failed. */
  lemma PassCompletes(run: seq<State>, moves: seq<Move>, k: nat, i: nat)
    requires IsRun(run, moves) && k < |run| && run[k].busy.Pass? && run[k].busy.next == |run[k].busy.listed|
    requires i < |run[k].busy.listed| && run[k].busy.listed[i].account !in run[k].busy.blocked
    ensures Known(run[k].log, run[k].busy.listed[i].id) && Terminal(Get(run[k].log, run[k].busy.listed[i].id).phase)
  {
    InvHolds(run, moves, k);
  }

  // ----- The pass as the daemon runs it -----

  /** The next operation is left for a later pass. */
  predicate Left(s: State)
    requires s.busy.Pass? && s.busy.next < |s.busy.listed|
  {
    Blocked(s.busy) || Recent(Current(s.busy), s.busy.cutoff)
  }

  predicate AtNext(s: State) { s.busy.Pass? && s.busy.next < |s.busy.listed| && s.busy.heard.None? }

  /** One operation of a pass that is not interrupted. */
  function Handle(s: State, reply: Reply, dbOk: bool, now: int): State
    requires AtNext(s)
  {
    if Left(s) then Step(s, Skip)
    else if Creates(Current(s.busy).kind) then Step(s, ResolveNext(dbOk, now))
    else Step(Step(s, Ask(reply)), ResolveNext(dbOk, now))
  }

  /** What the caller is told about an operation that was tried and did not succeed. */
  datatype Report = Report(account: string, operation: string, error: ProviderError, retryable: bool)

  function ReportOf(s: State, reply: Reply, dbOk: bool, now: int): seq<Report>
    requires AtNext(s)
  {
    var op := Current(s.busy);
    if Left(s) then []
    else match AttemptOf(s.log, op, reply, dbOk, now)
      case Ok(_) => []
      case Err(error) => [Report(op.account, op.id, error, Retryable(op.kind, error))]
  }

  /** An operation that is tried succeeds or is reported; it is retryable if and only if it is still pending. */
  lemma ReportTells(s: State, reply: Reply, dbOk: bool, now: int)
    requires AtNext(s) && Listed(s.log, Current(s.busy)) && !Left(s)
    ensures var op, log', reports := Current(s.busy), Handle(s, reply, dbOk, now).log, ReportOf(s, reply, dbOk, now);
      && Known(log', op.id)
      && (reports == [] <==> Get(log', op.id).phase.Succeeded?)
      && (reports != [] ==> reports[0].operation == op.id
                            && (reports[0].retryable <==> Get(log', op.id).phase.Pending?))
  {
    ResolveMoves(s.log, Current(s.busy), reply, dbOk, now);
    HandleEffect(s, reply, dbOk, now);
  }

  /** What SQLite gets done for one operation: the writes of the attempt, reading the revision after a deletion that
      found nothing to delete, and recording an error. */
  datatype Disk = Disk(commits: bool, revision: bool, records: bool)

  /** A deletion that found nothing to delete is finished, but the revision cannot be read. */
  predicate Unread(log: Log, op: Operation, reply: Reply, disk: Disk, now: int)
  {
    Deletes(op.kind) && TargetMissing(log, op) && AttemptOf(log, op, reply, disk.commits, now).Ok? && !disk.revision
  }

  /** The log after an attempt, and the error it ended with. */
  datatype Trial = Trial(log: Log, error: Option<ProviderError>)

  function Try(log: Log, op: Operation, reply: Reply, disk: Disk, now: int): Trial
  {
    match AttemptOf(log, op, reply, disk.commits, now)
    case Ok(log') => Trial(log', if Unread(log, op, reply, disk, now) then Some(Temporary) else None)
    case Err(error) => Trial(log, Some(error))
  }

  /** Recording the error of an attempt. */
  function Recording(log: Log, op: Operation, error: ProviderError, records: bool, now: int): Result<Log, StorageError>
  {
    if records then Recorded(log, op, error, now) else Err(Sqlite)
  }

  /** The next operation ends with an error that cannot be recorded, which ends the pass. */
  predicate Ends(s: State, reply: Reply, disk: Disk, now: int)
    requires AtNext(s)
  {
    var op := Current(s.busy);
    var tried := Try(s.log, op, reply, disk, now);
    !Left(s) && tried.error.Some? && Recording(tried.log, op, tried.error.value, disk.records, now).Err?
  }

  /** Such a deletion is finished already, so that deferring it fails. */
  lemma UnreadEnds(s: State, reply: Reply, disk: Disk, now: int)
    requires AtNext(s) && !Left(s) && Unread(s.log, Current(s.busy), reply, disk, now)
    ensures Ends(s, reply, disk, now)
    ensures Try(s.log, Current(s.busy), reply, disk, now).log == Handle(s, reply, disk.commits, now).log
  {
    var op := Current(s.busy);
    var log := Finish(s.log, op.id, None, now).value;
    PositionStays(s.log, log, op.id);
    assert Get(log, op.id).phase.Succeeded?;
  }

  lemma PositionStays(log: Log, log': Log, id: string)
    requires |log'.operations| == |log.operations|
    requires forall k :: 0 <= k < |log.operations| ==> log'.operations[k].id == log.operations[k].id
    ensures Position(log'.operations, id) == Position(log.operations, id)
  {
    var p, q := Position(log.operations, id), Position(log'.operations, id);
    assert p < |log.operations| ==> log'.operations[p].id == id;
    assert q < |log.operations| ==> log.operations[q].id == id;
  }

  /** The pass ends there if and only if SQLite fails to record an error, or fails to read the revision after such a
      deletion. */
  lemma EndsExactly(s: State, reply: Reply, disk: Disk, now: int)
    requires AtNext(s) && Listed(s.log, Current(s.busy))
    ensures Ends(s, reply, disk, now) <==>
      (ReportOf(s, reply, disk.commits, now) != [] && !disk.records)
      || (!Left(s) && Unread(s.log, Current(s.busy), reply, disk, now))
  {
    if !Left(s) && Unread(s.log, Current(s.busy), reply, disk, now) {
      UnreadEnds(s, reply, disk, now);
    }
  }

  /** The first n operations of a pass: the n-th gets the n-th reply and finds SQLite as the n-th entry says. */
  function PassTo(s: State, n: nat, replies: nat -> Reply, disks: nat -> Disk, now: int): (t: State)
    requires s.busy.Pass? && s.busy.next == 0 && s.busy.heard.None? && n <= |s.busy.listed|
    ensures t.busy.Pass? && t.busy.next == n && t.busy.heard.None? && t.busy.listed == s.busy.listed
      && t.busy.cutoff == s.busy.cutoff
  {
    if n == 0 then s else Handle(PassTo(s, n - 1, replies, disks, now), replies(n - 1), disks(n - 1).commits, now)
  }

  function ReportsTo(s: State, n: nat, replies: nat -> Reply, disks: nat -> Disk, now: int): seq<Report>
    requires s.busy.Pass? && s.busy.next == 0 && s.busy.heard.None? && n <= |s.busy.listed|
  {
    if n == 0 then []
    else
      var before := PassTo(s, n - 1, replies, disks, now);
      ReportsTo(s, n - 1, replies, disks, now) + ReportOf(before, replies(n - 1), disks(n - 1).commits, now)
  }

  /** The beginning of a pass. */
  function PassStart(log: Log, filter: Option<string>, now: int): (s: State)
    ensures s.busy.Pass? && s.busy.next == 0 && s.busy.heard.None?
  {
    Step(State(log, Idle, [], set op | op in log.operations :: op.id), StartPass(filter, now))
  }

  /** The pass gets to its n-th operation. */
  predicate Gets(s: State, n: nat, replies: nat -> Reply, disks: nat -> Disk, now: int)
    requires s.busy.Pass? && s.busy.next == 0 && s.busy.heard.None? && n <= |s.busy.listed|
  {
    n == 0
    || (Gets(s, n - 1, replies, disks, now)
        && !Ends(PassTo(s, n - 1, replies, disks, now), replies(n - 1), disks(n - 1), now))
  }

  /** The pass ends at its n-th operation. */
  predicate StopsAt(s: State, n: nat, replies: nat -> Reply, disks: nat -> Disk, now: int)
    requires s.busy.Pass? && s.busy.next == 0 && s.busy.heard.None?
  {
    && n < |s.busy.listed| && Gets(s, n, replies, disks, now)
    && Ends(PassTo(s, n, replies, disks, now), replies(n), disks(n), now)
  }

  /** How many operations have been handled when the pass ends at its n-th. */
  function Handled(s: State, n: nat, replies: nat -> Reply, disks: nat -> Disk, now: int): (m: nat)
    requires s.busy.Pass? && s.busy.next == 0 && s.busy.heard.None? && n < |s.busy.listed|
    ensures m <= |s.busy.listed|
  {
    var before := PassTo(s, n, replies, disks, now);
    if Unread(before.log, Current(before.busy), replies(n), disks(n), now) then n + 1 else n
  }

  lemma HandleKeepsInv(s: State, reply: Reply, dbOk: bool, now: int)
    requires Inv(s) && AtNext(s)
    ensures Inv(Handle(s, reply, dbOk, now))
  {
    if Left(s) {
      StepKeepsInv(s, Skip);
    } else {
      if !Creates(Current(s.busy).kind) {
        StepKeepsInv(s, Ask(reply));
      }
      StepKeepsInv(if Creates(Current(s.busy).kind) then s else Step(s, Ask(reply)), ResolveNext(dbOk, now));
    }
  }

  /** The pass ended early, at its n-th operation, and left this log. */
  predicate EndedAt(s: State, n: nat, log: Log, replies: nat -> Reply, disks: nat -> Disk, now: int)
    requires s.busy.Pass? && s.busy.next == 0 && s.busy.heard.None?
  {
    && StopsAt(s, n, replies, disks, now)
    && log == PassTo(s, Handled(s, n, replies, disks, now), replies, disks, now).log
  }

  lemma EndsThere(s: State, n: nat, log: Log, replies: nat -> Reply, disks: nat -> Disk, now: int)
    requires s.busy.Pass? && s.busy.next == 0 && s.busy.heard.None? && n < |s.busy.listed|
    requires StopsAt(s, n, replies, disks, now)
    requires var before := PassTo(s, n, replies, disks, now);
      log == Try(before.log, Current(before.busy), replies(n), disks(n), now).log
    ensures EndedAt(s, n, log, replies, disks, now)
  {
    var before, m := PassTo(s, n, replies, disks, now), Handled(s, n, replies, disks, now);
    if Unread(before.log, Current(before.busy), replies(n), disks(n), now) {
      UnreadEnds(before, replies(n), disks(n), now);
      assert m == n + 1 && PassTo(s, m, replies, disks, now) == Handle(before, replies(n), disks(n).commits, now);
    } else {
      assert m == n;
    }
  }

  /** The loop of a pass has come to its n-th operation. */
  predicate Progress(s: State, n: nat, log: Log, blocked: set<string>, errors: seq<Report>, replies: nat -> Reply,
                     disks: nat -> Disk, now: int)
    requires s.busy.Pass? && s.busy.next == 0 && s.busy.heard.None? && n <= |s.busy.listed|
  {
    && Gets(s, n, replies, disks, now) && NextIs(PassTo(s, n, replies, disks, now), log, blocked)
    && errors == ReportsTo(s, n, replies, disks, now)
  }

  lemma Progresses(s: State, n: nat, before: Log, blocked: set<string>, errors: seq<Report>, after: Log,
                   left: set<string>, replies: nat -> Reply, disks: nat -> Disk, now: int)
    requires s.busy.Pass? && s.busy.next == 0 && s.busy.heard.None? && n < |s.busy.listed|
    requires Progress(s, n, before, blocked, errors, replies, disks, now)
    requires var next := PassTo(s, n, replies, disks, now);
      !Ends(next, replies(n), disks(n), now) && NextIs(Handle(next, replies(n), disks(n).commits, now), after, left)
    ensures var reports := ReportOf(PassTo(s, n, replies, disks, now), replies(n), disks(n).commits, now);
      Progress(s, n + 1, after, left, errors + reports, replies, disks, now)
  {
  }

  lemma {:induction false} PassToKeepsInv(s: State, n: nat, replies: nat -> Reply, disks: nat -> Disk, now: int)
    requires s.busy.Pass? && s.busy.next == 0 && s.busy.heard.None? && n <= |s.busy.listed| && Inv(s)
    ensures Inv(PassTo(s, n, replies, disks, now))
  {
    if n > 0 {
      PassToKeepsInv(s, n - 1, replies, disks, now);
      HandleKeepsInv(PassTo(s, n - 1, replies, disks, now), replies(n - 1), disks(n - 1).commits, now);
    }
  }

  lemma StartSound(log: Log, filter: Option<string>, now: int)
    requires DistinctIds(log.operations)
    ensures Inv(PassStart(log, filter, now))
  {
    StepKeepsInv(State(log, Idle, [], set op | op in log.operations :: op.id), StartPass(filter, now));
  }

  /** The operation a pass has got to is still as it was listed, so that its error can be recorded. */
  lemma SoundPassGoesOn(s: State, reply: Reply, disk: Disk, now: int)
    requires Inv(s) && AtNext(s) && disk.revision && disk.records
    ensures !Ends(s, reply, disk, now)
  {
    assert Listed(s.log, Current(s.busy));
    EndsExactly(s, reply, disk, now);
  }

  lemma {:induction false} SoundPassEnds(s: State, n: nat, replies: nat -> Reply, disks: nat -> Disk, now: int)
    requires s.busy.Pass? && s.busy.next == 0 && s.busy.heard.None? && n <= |s.busy.listed| && Inv(s)
    requires forall m: nat :: m < n ==> disks(m).revision && disks(m).records
    ensures Gets(s, n, replies, disks, now)
  {
    if n > 0 {
      SoundPassEnds(s, n - 1, replies, disks, now);
      PassToKeepsInv(s, n - 1, replies, disks, now);
      SoundPassGoesOn(PassTo(s, n - 1, replies, disks, now), replies(n - 1), disks(n - 1), now);
    }
  }

  /** While SQLite reads revisions and records errors, a pass over a log without repeated ids gets to its end, whatever
      becomes of its commits. */
  lemma WorkingPassEnds(
      log: Log, filter: Option<string>, n: nat, replies: nat -> Reply, disks: nat -> Disk, now: int)
    requires DistinctIds(log.operations) && n <= |PassStart(log, filter, now).busy.listed|
    requires forall m: nat :: m < n ==> disks(m).revision && disks(m).records
    ensures Gets(PassStart(log, filter, now), n, replies, disks, now)
  {
    StartSound(log, filter, now);
    SoundPassEnds(PassStart(log, filter, now), n, replies, disks, now);
  }

  lemma HandleEffect(s: State, reply: Reply, dbOk: bool, now: int)
    requires AtNext(s)
    ensures var op, t := Current(s.busy), Handle(s, reply, dbOk, now);
      if Left(s) then
        t.log == s.log && t.busy.blocked == s.busy.blocked + {op.account}
      else
        var out := Resolve(s.log, op, reply, dbOk, now);
        t.log == out.log && t.busy.blocked == s.busy.blocked + if out.blocks then {op.account} else {}
  {
  }

  /** The log and the accounts to leave are those of the pass. */
  predicate NextIs(s: State, log: Log, blocked: set<string>)
  {
    s.busy.Pass? && s.log == log && s.busy.blocked == blocked
  }

  /** What a live mutation answers its client with. */
  datatype MutationError = Store(error: StorageError) | Provider(reason: ProviderError)

  lemma QueuedIsListed(log: Log, op: Operation)
    requires !Known(log, op.id) && op.phase.Pending?
    requires Queue(log, op.id, op.kind, op.account, op.payload).Ok? && op.attemptedAt.None? && op.error.None?
    ensures Listed(Queue(log, op.id, op.kind, op.account, op.payload).value, op)
  {
    var queued := Queue(log, op.id, op.kind, op.account, op.payload).value;
    assert queued.operations[|log.operations|] == op;
    assert forall k :: 0 <= k < |log.operations| ==> queued.operations[k].id != op.id;
  }

  /** How a live mutation leaves its operation. */
  lemma SettledPhase(log: Log, op: Operation, reply: Reply, now: int)
    requires Listed(log, op) && Readable(op) && !reply.Unavailable?
    ensures PhaseOf(Settle(log, op, reply, true, now), op.id) ==
      Some(if Carried(op, reply) then (if Commit(log, op, reply, now).Ok? then Succeeded else Pending)
           else if Retryable(op.kind, reply.error) then Pending else Failed)
    ensures PhaseOf(log, op.id) == Some(Pending)
  {
    if Carried(op, reply) {
      CommitMoves(log, op, reply, now);
    } else {
      RecordErrorMoves(log, op, reply.error, now, reply);
    }
  }

  class AgendaDaemon {
    const database: AgendaRepository

    constructor (repository: AgendaRepository)
      ensures database == repository
    {
      database := repository;
    }

    method CommitReply(op: Operation, reply: Reply, now: int) returns (result: Result<(), StorageError>)
      requires Readable(op) && Carried(op, reply)
      modifies database
      ensures match Commit(old(database.View()), op, reply, now)
        case Ok(log) => result.Ok? && database.View() == log
        case Err(error) => result == Err(error) && database.View() == old(database.View())
    {
      if Deletes(op.kind) {
        result := database.CommitAgendaDelete(op.id, OnEvents(op.kind), op.payload.target, now);
      } else {
        result := database.CommitAgendaUpsert(op.id, OnEvents(op.kind), reply.item, now);
      }
    }

    method AttemptOperation(op: Operation, reply: Reply, disk: Disk, now: int)
      returns (result: Result<(), ProviderError>)
      requires !Creates(op.kind)
      modifies database
      ensures var tried := Try(old(database.View()), op, reply, disk, now);
        database.View() == tried.log && result == if tried.error.None? then Ok(()) else Err(tried.error.value)
    {
      if reply.Unavailable? {
        return Err(reply.error);
      }
      if !Readable(op) {
        return Err(Other);
      }
      var missing := (op.kind.TaskComplete? || Deletes(op.kind))
        && op.payload.target !in (if OnEvents(op.kind) then database.events else database.tasks);
      if op.kind.TaskComplete? && missing {
        return Err(Missing);
      }
      if !missing && !Carried(op, reply) {
        return Err(reply.error);
      }
      if !disk.commits {
        return Err(Temporary);
      }
      var stored: Result<(), StorageError>;
      if missing {
        stored := database.FinishOperation(op.id, None, now);
        if stored.Ok? && !disk.revision {
          return Err(Temporary);
        }
      } else {
        stored := CommitReply(op, reply, now);
      }
      result := match stored case Ok(_) => Ok(()) case Err(error) => Err(RecoveryError(error));
    }

    method RecordOperationError(op: Operation, error: ProviderError, records: bool, now: int)
      returns (result: Result<(), StorageError>)
      modifies database
      ensures match Recording(old(database.View()), op, error, records, now)
        case Ok(log) => result.Ok? && database.View() == log
        case Err(failure) => result == Err(failure) && database.View() == old(database.View())
    {
      if !records {
        return Err(Sqlite);
      }
      if Retryable(op.kind, error) {
        result := database.DeferOperation(op.id, error, now);
      } else {
        result := database.FinishOperation(op.id, Some(error), now);
      }
    }

    /** A live mutation under a fresh id: the operation is queued before the provider hears of it, and the client is
        told of success exactly when the operation is recorded as succeeded. */
    method MutateAgenda(op: Operation, reply: Reply, queues: bool, disk: Disk, now: int)
      returns (result: Result<(), MutationError>)
      requires Readable(op) && op.phase.Pending? && op.attemptedAt.None? && op.error.None? && !reply.Unavailable?
      requires !Known(database.View(), op.id)
      modifies database
      ensures var queued := Queue(old(database.View()), op.id, op.kind, op.account, op.payload);
        if !queues || queued.Err? then result.Err? && database.View() == old(database.View())
        else if Carried(op, reply) || disk.records then
          database.View() == Settle(queued.value, op, reply, disk.commits, now)
        else database.View() == queued.value
      ensures result.Ok? <==> PhaseOf(database.View(), op.id) == Some(Succeeded)
      ensures !queues ==> !Known(database.View(), op.id)
    {
      if !queues {
        return Err(Store(Sqlite));
      }
      ghost var before := database.View();
      var stored := database.QueueAgendaOperation(op.id, op.kind, op.account, op.payload);
      if stored.Err? {
        return Err(Store(stored.error));
      }
      QueuedIsListed(before, op);
      SettledPhase(database.View(), op, reply, now);
      if !Carried(op, reply) {
        stored := RecordOperationError(op, reply.error, disk.records, now);
        return Err(if stored.Ok? then Provider(reply.error) else Store(stored.error));
      }
      if !disk.commits {
        return Err(Store(Sqlite));
      }
      stored := CommitReply(op, reply, now);
      result := if stored.Ok? then Ok(()) else Err(Store(stored.error));
    }

    /** One operation: what went wrong with it, or an error when even that cannot be recorded. */
    method RecoverOperation(op: Operation, reply: Reply, disk: Disk, now: int)
      returns (result: Result<Option<ProviderError>, StorageError>)
      modifies database
      ensures var tried := Try(old(database.View()), op, reply, disk, now);
        if tried.error.None? then result == Ok(None) && database.View() == tried.log
        else match Recording(tried.log, op, tried.error.value, disk.records, now)
          case Ok(log) => result == Ok(tried.error) && database.View() == log
          case Err(failure) => result == Err(failure) && database.View() == tried.log
    {
      var attempt: Result<(), ProviderError> := Err(Other);
      if !Creates(op.kind) {
        attempt := AttemptOperation(op, reply, disk, now);
      }
      if attempt.Ok? {
        return Ok(None);
      }
      var recorded := RecordOperationError(op, attempt.error, disk.records, now);
      result := if recorded.Ok? then Ok(Some(attempt.error)) else Err(recorded.error);
    }

    /** The next operation of a pass, with the set of accounts to leave. */
    method RecoverNext(
        ghost s: State, op: Operation, blocked: set<string>, cutoff: int, reply: Reply, disk: Disk, now: int)
      returns (errors: Result<seq<Report>, StorageError>, left: set<string>)
      requires AtNext(s) && op == Current(s.busy) && blocked == s.busy.blocked && cutoff == s.busy.cutoff
      requires s.log == database.View()
      modifies database
      ensures if Ends(s, reply, disk, now)
        then errors.Err? && database.View() == Try(s.log, op, reply, disk, now).log
        else errors == Ok(ReportOf(s, reply, disk.commits, now))
             && NextIs(Handle(s, reply, disk.commits, now), database.View(), left)
    {
      HandleEffect(s, reply, disk.commits, now);
      if op.account in blocked {
        assert blocked == blocked + {op.account};
        return Ok([]), blocked;
      }
      left := blocked;
      if Recent(op, cutoff) {
        return Ok([]), blocked + {op.account};
      }
      if Unread(s.log, op, reply, disk, now) {
        UnreadEnds(s, reply, disk, now);
      }
      var recovered := RecoverOperation(op, reply, disk, now);
      if recovered.Err? {
        return Err(recovered.error), blocked;
      }
      errors := Ok([]);
      if recovered.value.Some? {
        var error := recovered.value.value;
        if Retryable(op.kind, error) {
          left := left + {op.account};
        }
        errors := Ok([Report(op.account, op.id, error, Retryable(op.kind, error))]);
      }
    }

    /** Recovers the pending operations of one account or of all. SQLite may fail at any commit, which is one more
        retryable error, at recording an error, which ends the pass there, and at reading the revision, which ends it
        right after the operation that was just finished. */
    method RecoverPendingAgendaOperations(
        filter: Option<string>, replies: nat -> Reply, disks: nat -> Disk, now: int)
      returns (result: Result<seq<Report>, StorageError>)
      modifies database
      ensures var start := PassStart(old(database.View()), filter, now);
        match result
        case Ok(errors) =>
          && Gets(start, |start.busy.listed|, replies, disks, now)
          && database.View() == PassTo(start, |start.busy.listed|, replies, disks, now).log
          && errors == ReportsTo(start, |start.busy.listed|, replies, disks, now)
        case Err(_) =>
          exists n: nat :: EndedAt(start, n, database.View(), replies, disks, now)
    {
      ghost var start := PassStart(database.View(), filter, now);
      var operations := database.ListPendingAgendaOperations(filter);
      var cutoff := now - AGENDA_RETRY_BACKOFF_MS;
      var blocked: set<string> := {};
      var errors: seq<Report> := [];
      for n := 0 to |operations|
        invariant operations == start.busy.listed && cutoff == start.busy.cutoff
        invariant Progress(start, n, database.View(), blocked, errors, replies, disks, now)
      {
        ghost var next, log := PassTo(start, n, replies, disks, now), database.View();
        var reports, left := RecoverNext(next, operations[n], blocked, cutoff, replies(n), disks(n), now);
        if reports.Err? {
          EndsThere(start, n, database.View(), replies, disks, now);
          return Err(reports.error);
        }
        Progresses(start, n, log, blocked, errors, database.View(), left, replies, disks, now);
        blocked, errors := left, errors + reports.value;
      }
      result := Ok(errors);
    }
  }
}
