/** The durable log of remote agenda operations and the task and event tables it commits together with. */
module AgendaLog {
  import opened Wrappers
  import opened StorageErrors
  import opened Text

  const MAX_RECOVERY_OPERATIONS: nat := 128
  const AGENDA_RETRY_BACKOFF_MS: int := 30000

  datatype ProviderError = Authentication | Temporary | Missing | Unsupported | Other

  datatype Kind = TaskCreate | TaskUpdate | TaskComplete | TaskDelete | EventCreate | EventUpdate | EventDelete

  datatype Phase = Pending | Succeeded | Failed

  /** A task or an event; scope is what the unique index over external ids adds to it. */
  datatype Item = Item(id: string, scope: string, external: string, done: bool, content: string)

  datatype Payload = Whole(item: Item) | Completion(target: string, done: bool) | Deletion(target: string) | Unreadable

  datatype Operation = Operation(
    id: string, kind: Kind, account: string, payload: Payload, phase: Phase, attemptedAt: Option<int>,
    error: Option<ProviderError>)

  /** Operations in rowid order, and the two tables. */
  datatype Log = Log(operations: seq<Operation>, tasks: map<string, Item>, events: map<string, Item>, revision: nat)

  predicate Creates(kind: Kind) { kind.TaskCreate? || kind.EventCreate? }

  predicate Deletes(kind: Kind) { kind.TaskDelete? || kind.EventDelete? }

  predicate OnEvents(kind: Kind) { kind.EventCreate? || kind.EventUpdate? || kind.EventDelete? }

  function Table(log: Log, kind: Kind): map<string, Item> { if OnEvents(kind) then log.events else log.tasks }

  function WithTable(log: Log, kind: Kind, table: map<string, Item>): Log
  {
    if OnEvents(kind) then log.(events := table) else log.(tasks := table)
  }

  /** Where the operation with an id stands; the length when there is none. */
  function Position(operations: seq<Operation>, id: string): (p: nat)
    ensures p <= |operations|
    ensures p < |operations| ==> operations[p].id == id
    ensures forall k :: 0 <= k < p ==> operations[k].id != id
  {
    if operations == [] then 0
    else
      var p := Position(operations[..|operations| - 1], id);
      if p < |operations| - 1 || operations[|operations| - 1].id == id then p else |operations|
  }

  predicate Known(log: Log, id: string) { Position(log.operations, id) < |log.operations| }

  function Get(log: Log, id: string): Operation
    requires Known(log, id)
  {
    log.operations[Position(log.operations, id)]
  }

  function PhaseOf(log: Log, id: string): Option<Phase>
  {
    if Known(log, id) then Some(Get(log, id).phase) else None
  }

  ghost predicate DistinctIds(operations: seq<Operation>)
  {
    forall i, j :: 0 <= i < j < |operations| ==> operations[i].id != operations[j].id
  }

  function Put(log: Log, operation: Operation): Log
    requires Known(log, operation.id)
  {
    log.(operations := log.operations[Position(log.operations, operation.id) := operation])
  }

  function Queue(log: Log, id: string, kind: Kind, account: string, payload: Payload): Result<Log, StorageError>
  {
    if Trim(account) == "" then Err(InvalidData)
    else Ok(log.(operations := log.operations + [Operation(id, kind, account, payload, Pending, None, None)],
                 revision := log.revision + 1))
  }

  /** No look at the state the operation is in. */
  function Finish(log: Log, id: string, error: Option<ProviderError>, now: int): Result<Log, StorageError>
  {
    if !Known(log, id) then Err(NotFound)
    else
      var phase := if error.None? then Succeeded else Failed;
      Ok(Put(log, Get(log, id).(phase := phase, attemptedAt := Some(now), error := error)))
  }

  function Defer(log: Log, id: string, error: ProviderError, now: int): Result<Log, StorageError>
  {
    if !Known(log, id) || Get(log, id).phase != Pending then Err(NotFound)
    else Ok(Put(log, Get(log, id).(attemptedAt := Some(now), error := Some(error))))
  }

  /** The unique index over nonempty external ids within a scope. */
  predicate Collides(table: map<string, Item>, item: Item)
  {
    item.external != ""
    && exists id :: id in table && id != item.id && table[id].scope == item.scope && table[id].external == item.external
  }

  predicate Committable(log: Log, id: string, delete: bool, events: bool)
  {
    Known(log, id) && Get(log, id).phase == Pending && Deletes(Get(log, id).kind) == delete
    && OnEvents(Get(log, id).kind) == events
  }

  function CommitFailure(log: Log, id: string): StorageError { if Known(log, id) then InvalidData else NotFound }

  function MarkSucceeded(log: Log, id: string, now: int): Log
    requires Known(log, id)
  {
    Put(log, Get(log, id).(phase := Succeeded, attemptedAt := Some(now), error := None))
      .(revision := log.revision + 1)
  }

  function CommitUpsert(log: Log, id: string, events: bool, item: Item, now: int): Result<Log, StorageError>
  {
    var table := if events then log.events else log.tasks;
    if Collides(table, item) then Err(Sqlite)
    else if !Committable(log, id, false, events) then Err(CommitFailure(log, id))
    else Ok(MarkSucceeded(WithTable(log, Get(log, id).kind, table[item.id := item]), id, now))
  }

  function CommitDelete(log: Log, id: string, events: bool, target: string, now: int): Result<Log, StorageError>
  {
    var table := if events then log.events else log.tasks;
    if target !in table then Err(NotFound)
    else if !Committable(log, id, true, events) then Err(CommitFailure(log, id))
    else Ok(MarkSucceeded(WithTable(log, Get(log, id).kind, table - {target}), id, now))
  }

  predicate Matches(operation: Operation, account: Option<string>)
  {
    operation.phase == Pending && (account.None? || operation.account == account.value)
  }

  function Matching(operations: seq<Operation>, account: Option<string>): seq<Operation>
  {
    if operations == [] then []
    else
      var last := operations[|operations| - 1];
      Matching(operations[..|operations| - 1], account) + if Matches(last, account) then [last] else []
  }

  function ListPending(operations: seq<Operation>, account: Option<string>): seq<Operation>
  {
    var all := Matching(operations, account);
    if |all| <= MAX_RECOVERY_OPERATIONS then all else all[..MAX_RECOVERY_OPERATIONS]
  }

  // ----- What the list holds -----

  lemma {:induction false} MatchingMembers(operations: seq<Operation>, account: Option<string>, all: seq<Operation>)
    requires all == Matching(operations, account)
    ensures forall operation :: operation in all <==> operation in operations && Matches(operation, account)
  {
    if operations != [] {
      var shorter := operations[..|operations| - 1];
      var last := operations[|operations| - 1];
      MatchingMembers(shorter, account, Matching(shorter, account));
      assert operations == shorter + [last];
    }
  }

  lemma PositionInPrefix(operations: seq<Operation>, n: nat, operation: Operation)
    requires n <= |operations| && operation in operations[..n] && DistinctIds(operations)
    ensures Position(operations, operation.id) < n
    ensures Position(operations, operation.id) == Position(operations[..n], operation.id)
  {
    PositionOf(operations, operation);
    PositionOf(operations[..n], operation);
  }

  lemma {:induction false} MatchingOrder(
      operations: seq<Operation>, n: nat, account: Option<string>, all: seq<Operation>)
    requires n <= |operations| && DistinctIds(operations) && all == Matching(operations[..n], account)
    ensures forall i, j :: 0 <= i < j < |all| ==> Position(operations, all[i].id) < Position(operations, all[j].id)
  {
    if n > 0 {
      var before := Matching(operations[..n - 1], account);
      assert operations[..n][..n - 1] == operations[..n - 1];
      MatchingOrder(operations, n - 1, account, before);
      MatchingMembers(operations[..n - 1], account, before);
      if all != before {
        var last := operations[n - 1];
        assert all == before + [last];
        PositionOf(operations, last);
        forall i | 0 <= i < |before| ensures Position(operations, before[i].id) < n - 1 {
          PositionInPrefix(operations, n - 1, before[i]);
        }
      }
    }
  }

  lemma PositionOf(operations: seq<Operation>, operation: Operation)
    requires operation in operations && DistinctIds(operations)
    ensures Position(operations, operation.id) < |operations|
    ensures operations[Position(operations, operation.id)] == operation
  {
    var k :| 0 <= k < |operations| && operations[k] == operation;
    var p := Position(operations, operation.id);
    assert p <= k;
  }

  /** A listing is the beginning, in row order, of the pending operations of every account it covers. */
  lemma ListIsPrefix(log: Log, account: Option<string>, listed: seq<Operation>)
    requires DistinctIds(log.operations) && listed == ListPending(log.operations, account)
    ensures |listed| <= MAX_RECOVERY_OPERATIONS
    ensures forall i :: 0 <= i < |listed| ==>
      Known(log, listed[i].id) && Get(log, listed[i].id) == listed[i] && Matches(listed[i], account)
    ensures forall i, j :: 0 <= i < j < |listed| ==>
      Position(log.operations, listed[i].id) < Position(log.operations, listed[j].id)
    ensures forall operation :: operation in log.operations && Matches(operation, account) && operation !in listed ==>
      |listed| == MAX_RECOVERY_OPERATIONS
      && forall i :: 0 <= i < |listed| ==>
        Position(log.operations, listed[i].id) < Position(log.operations, operation.id)
  {
    var all := Matching(log.operations, account);
    MatchingMembers(log.operations, account, all);
    assert log.operations[..|log.operations|] == log.operations;
    MatchingOrder(log.operations, |log.operations|, account, all);
    forall i | 0 <= i < |listed|
      ensures Known(log, listed[i].id) && Get(log, listed[i].id) == listed[i] && Matches(listed[i], account)
    {
      assert listed[i] == all[i] && all[i] in all;
      PositionOf(log.operations, all[i]);
    }
    forall operation | operation in log.operations && Matches(operation, account) && operation !in listed
      ensures |listed| == MAX_RECOVERY_OPERATIONS
      ensures forall i :: 0 <= i < |listed| ==>
        Position(log.operations, listed[i].id) < Position(log.operations, operation.id)
    {
      LeftOutIsLater(log.operations, all, |listed|, operation);
    }
  }

  lemma LeftOutIsLater(operations: seq<Operation>, all: seq<Operation>, n: nat, operation: Operation)
    requires n <= |all| && operation in all && operation !in all[..n]
    requires forall i, j :: 0 <= i < j < |all| ==> Position(operations, all[i].id) < Position(operations, all[j].id)
    ensures n < |all|
    ensures forall i :: 0 <= i < n ==> Position(operations, all[..n][i].id) < Position(operations, operation.id)
  {
    var j :| 0 <= j < |all| && all[j] == operation;
    assert forall k :: 0 <= k < n ==> all[..n][k] == all[k];
  }

  /** The log and its tables in SQLite; every method is one transaction. */
  class AgendaRepository {
    var operations: seq<Operation>
    var tasks: map<string, Item>
    var events: map<string, Item>
    var revision: nat

    ghost function View(): Log
      reads this
    {
      Log(operations, tasks, events, revision)
    }

    constructor ()
      ensures View() == Log([], map[], map[], 0)
    {
      operations, tasks, events, revision := [], map[], map[], 0;
    }

    method Locate(id: string) returns (p: nat)
      ensures p == Position(operations, id)
    {
      p := 0;
      while p < |operations| && operations[p].id != id
        invariant p <= |operations|
        invariant forall k :: 0 <= k < p ==> operations[k].id != id
      {
        p := p + 1;
      }
      var q := Position(operations, id);
    }

    method QueueAgendaOperation(id: string, kind: Kind, account: string, payload: Payload)
      returns (result: Result<(), StorageError>)
      modifies this
      ensures match Queue(old(View()), id, kind, account, payload)
        case Ok(log) => result.Ok? && View() == log
        case Err(error) => result == Err(error) && View() == old(View())
    {
      if Trim(account) == "" {
        return Err(InvalidData);
      }
      operations := operations + [Operation(id, kind, account, payload, Pending, None, None)];
      revision := revision + 1;
      result := Ok(());
    }

    method FinishOperation(id: string, error: Option<ProviderError>, now: int)
      returns (result: Result<(), StorageError>)
      modifies this
      ensures match Finish(old(View()), id, error, now)
        case Ok(log) => result.Ok? && View() == log
        case Err(failure) => result == Err(failure) && View() == old(View())
    {
      var p := Locate(id);
      if p == |operations| {
        return Err(NotFound);
      }
      var phase := if error.None? then Succeeded else Failed;
      operations := operations[p := operations[p].(phase := phase, attemptedAt := Some(now), error := error)];
      result := Ok(());
    }

    method DeferOperation(id: string, error: ProviderError, now: int) returns (result: Result<(), StorageError>)
      modifies this
      ensures match Defer(old(View()), id, error, now)
        case Ok(log) => result.Ok? && View() == log
        case Err(failure) => result == Err(failure) && View() == old(View())
    {
      var p := Locate(id);
      if p == |operations| || operations[p].phase != Pending {
        return Err(NotFound);
      }
      operations := operations[p := operations[p].(attemptedAt := Some(now), error := Some(error))];
      result := Ok(());
    }

    /** The row goes in first and the operation is checked after it; a failed check rolls the row back. */
    method CommitAgendaUpsert(id: string, onEvents: bool, item: Item, now: int)
      returns (result: Result<(), StorageError>)
      modifies this
      ensures match CommitUpsert(old(View()), id, onEvents, item, now)
        case Ok(log) => result.Ok? && View() == log
        case Err(failure) => result == Err(failure) && View() == old(View())
    {
      var savedTasks, savedEvents := tasks, events;
      if Collides(if onEvents then events else tasks, item) {
        return Err(Sqlite);
      }
      if onEvents {
        events := events[item.id := item];
      } else {
        tasks := tasks[item.id := item];
      }
      var p := Locate(id);
      if p == |operations| {
        tasks, events := savedTasks, savedEvents;
        return Err(NotFound);
      }
      var kind := operations[p].kind;
      if operations[p].phase != Pending || Deletes(kind) || OnEvents(kind) != onEvents {
        tasks, events := savedTasks, savedEvents;
        return Err(InvalidData);
      }
      operations := operations[p := operations[p].(phase := Succeeded, attemptedAt := Some(now), error := None)];
      revision := revision + 1;
      result := Ok(());
    }

    method CommitAgendaDelete(id: string, onEvents: bool, target: string, now: int)
      returns (result: Result<(), StorageError>)
      modifies this
      ensures match CommitDelete(old(View()), id, onEvents, target, now)
        case Ok(log) => result.Ok? && View() == log
        case Err(failure) => result == Err(failure) && View() == old(View())
    {
      var savedTasks, savedEvents := tasks, events;
      if target !in (if onEvents then events else tasks) {
        return Err(NotFound);
      }
      if onEvents {
        events := events - {target};
      } else {
        tasks := tasks - {target};
      }
      var p := Locate(id);
      if p == |operations| {
        tasks, events := savedTasks, savedEvents;
        return Err(NotFound);
      }
      var kind := operations[p].kind;
      if operations[p].phase != Pending || !Deletes(kind) || OnEvents(kind) != onEvents {
        tasks, events := savedTasks, savedEvents;
        return Err(InvalidData);
      }
      operations := operations[p := operations[p].(phase := Succeeded, attemptedAt := Some(now), error := None)];
      revision := revision + 1;
      result := Ok(());
    }

    /** The rows in rowid order until the limit is reached. */
    method ListPendingAgendaOperations(account: Option<string>) returns (listed: seq<Operation>)
      ensures listed == ListPending(operations, account)
    {
      listed := [];
      var i := 0;
      while i < |operations| && |listed| < MAX_RECOVERY_OPERATIONS
        invariant i <= |operations| && |listed| <= MAX_RECOVERY_OPERATIONS
        invariant listed == Matching(operations[..i], account)
      {
        assert operations[..i + 1][..i] == operations[..i];
        if Matches(operations[i], account) {
          listed := listed + [operations[i]];
        }
        i := i + 1;
      }
      MatchingPrefix(operations, i, account);
      assert operations[..|operations|] == operations;
    }
  }

  lemma {:induction false} MatchingPrefix(operations: seq<Operation>, i: nat, account: Option<string>)
    requires i <= |operations|
    ensures Matching(operations[..i], account) <= Matching(operations, account)
  {
    if i < |operations| {
      var shorter := operations[..|operations| - 1];
      MatchingPrefix(shorter, i, account);
      assert shorter[..i] == operations[..i];
    } else {
      assert operations[..i] == operations;
    }
  }
}
