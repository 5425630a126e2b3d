/** What the full-text index and the cached bodies are after any run of storage commands. */
module CacheHistory {
  import opened Wrappers
  import opened StorageErrors
  import opened Storage

  datatype Command =
    | FullUpsert(batch: seq<Message>)
    | SummaryUpsert(summaries: seq<SummaryMessage>)
    | Sync(account: string, mailbox: string, page: SyncPage)
    | Confirm(action: MailAction)
    | Add(account: string)
    | AddMailboxes(mailboxes: seq<(string, string)>)
    | Remove(account: string)

  /** A command either commits or leaves the tables alone. */
  function Outcome(t: Tables, c: Command): Result<Tables, StorageError>
  {
    match c
    case FullUpsert(batch) => UpsertBatch(t, batch, true)
    case SummaryUpsert(summaries) => UpsertBatch(t, summaries, false)
    case Sync(account, mailbox, page) => ApplySyncPage(t, account, mailbox, page)
    case Confirm(action) => FinishAction(t, action)
    case Add(account) => Ok(UpsertAccount(t, account))
    case AddMailboxes(mailboxes) => UpsertMailboxes(t, mailboxes)
    case Remove(account) => RemoveAccount(t, account)
  }

  function After(t: Tables, c: Command): Tables
  {
    match Outcome(t, c) case Ok(done) => done case Err(_) => t
  }

  function Run(commands: seq<Command>): Tables
  {
    if commands == [] then EMPTY_TABLES else After(Run(commands[..|commands| - 1]), commands[|commands| - 1])
  }

  // ----- The index -----

  /** Exactly one posting for each message row, and it is the row's projection. */
  predicate IndexAgrees(t: Tables)
  {
    t.index == map id | id in t.messages :: [Projection(t.messages[id])]
  }

  lemma UnchangedContent(before: Row, after: Row)
    requires !ContentChanged(before, after)
    ensures Projection(before) == Projection(after)
  {
  }

  lemma InsertKeepsIndex(t: Tables, id: string, row: Row)
    requires IndexAgrees(t) && id !in t.messages
    ensures IndexAgrees(InsertRow(t, id, row))
  {
    assert [] + [Projection(row)] == [Projection(row)];
  }

  lemma UpdateKeepsIndex(t: Tables, id: string, row: Row)
    requires IndexAgrees(t) && id in t.messages
    ensures IndexAgrees(UpdateRow(t, id, row))
  {
    if !ContentChanged(t.messages[id], row) {
      UnchangedContent(t.messages[id], row);
    }
  }

  lemma DeleteKeepsIndex(t: Tables, ids: set<string>)
    requires IndexAgrees(t)
    ensures IndexAgrees(DeleteRows(t, ids))
  {
  }

  lemma {:induction false} UpsertAllKeepsIndex(t: Tables, batch: seq<Message>, bodyLoaded: bool)
    requires IndexAgrees(t)
    ensures var r := UpsertAll(t, batch, bodyLoaded); r.Ok? ==> IndexAgrees(r.value)
  {
    if batch != [] {
      UpsertAllKeepsIndex(t, batch[..|batch| - 1], bodyLoaded);
      var partial := UpsertAll(t, batch[..|batch| - 1], bodyLoaded);
      if partial.Ok? {
        var m := batch[|batch| - 1];
        if m.id in partial.value.messages {
          var before := partial.value.messages[m.id];
          UpdateKeepsIndex(partial.value, m.id,
            Row(m.summary, if bodyLoaded then m.body else before.body, before.bodyLoaded || bodyLoaded));
        } else {
          InsertKeepsIndex(partial.value, m.id, Row(m.summary, m.body, bodyLoaded));
        }
      }
    }
  }

  lemma {:induction false} ActionKeepsIndex(t: Tables, action: MailAction, k: nat)
    requires IndexAgrees(t) && k <= |action.ids|
    ensures IndexAgrees(ApplyAction(t, action, k))
  {
    if k > 0 {
      ActionKeepsIndex(t, action, k - 1);
      var before := ApplyAction(t, action, k - 1);
      var id := action.ids[k - 1];
      if id in before.messages {
        if Deletes(action) {
          DeleteKeepsIndex(before, {id});
        } else {
          UpdateKeepsIndex(before, id, Edited(before.messages[id], action));
        }
      }
    }
  }

  lemma CommandKeepsIndex(t: Tables, c: Command)
    requires IndexAgrees(t)
    ensures IndexAgrees(After(t, c))
  {
    match c
    case FullUpsert(batch) => UpsertAllKeepsIndex(t, batch, true);
    case SummaryUpsert(summaries) => UpsertAllKeepsIndex(t, summaries, false);
    case Sync(account, mailbox, page) => PageKeepsIndex(t, account, mailbox, page);
    case Confirm(action) => ActionKeepsIndex(t, action, |action.ids|);
    case Remove(account) => DeleteKeepsIndex(t, AccountIds(t, account));
    case _ =>
  }

  lemma PageKeepsIndex(t: Tables, account: string, mailbox: string, page: SyncPage)
    requires IndexAgrees(t)
    ensures ApplySyncPage(t, account, mailbox, page).Ok? ==> IndexAgrees(ApplySyncPage(t, account, mailbox, page).value)
  {
    var base := if page.reset then WithoutCursor(t, account, mailbox) else t;
    DeleteKeepsIndex(base, PageDeletes(t, account, mailbox, page));
    UpsertAllKeepsIndex(DeleteRows(base, PageDeletes(t, account, mailbox, page)), page.messages, false);
  }

  /** After any run the full-text table is the projection of the message rows, although the update
      trigger skips every update that leaves the indexed columns alone. */
  lemma {:induction false} IndexFollowsRows(commands: seq<Command>)
    ensures IndexAgrees(Run(commands))
  {
    if commands != [] {
      IndexFollowsRows(commands[..|commands| - 1]);
      CommandKeepsIndex(Run(commands[..|commands| - 1]), commands[|commands| - 1]);
    }
  }

  // ----- The bodies -----

  /** The bodies a batch of full messages carries, later entries winning. */
  function Overlay(trace: map<string, Body>, batch: seq<Message>): map<string, Body>
  {
    if batch == [] then trace
    else Overlay(trace, batch[..|batch| - 1])[batch[|batch| - 1].id := batch[|batch| - 1].body]
  }

  function Elements(ids: seq<string>): set<string> { set id | id in ids }

  /** The rows a committed command deletes. */
  function Deleted(t: Tables, c: Command): set<string>
  {
    match c
    case Sync(account, mailbox, page) =>
      if PageEmpty(page) then {} else PageDeletes(t, account, mailbox, page)
    case Confirm(action) => if Deletes(action) then Elements(action.ids) else {}
    case Remove(account) => AccountIds(t, account)
    case _ => {}
  }

  /** For every message stored since its insertion by a full upsert, the body of the last one. */
  function LastFullBodies(commands: seq<Command>): map<string, Body>
  {
    if commands == [] then map[]
    else
      var earlier := commands[..|commands| - 1];
      var c := commands[|commands| - 1];
      var kept := LastFullBodies(earlier);
      if Outcome(Run(earlier), c).Err? then kept
      else if c.FullUpsert? then Overlay(kept, c.batch)
      else kept - Deleted(Run(earlier), c)
  }

  predicate BodyAgrees(row: Row, id: string, trace: map<string, Body>)
  {
    && (row.bodyLoaded <==> id in trace)
    && row.body == if id in trace then trace[id] else EMPTY_BODY
  }

  predicate BodiesAgree(t: Tables, trace: map<string, Body>)
  {
    && trace.Keys <= t.messages.Keys
    && forall id :: id in t.messages ==> BodyAgrees(t.messages[id], id, trace)
  }

  lemma {:induction false} FullUpsertBodies(t: Tables, batch: seq<Message>, trace: map<string, Body>)
    requires BodiesAgree(t, trace)
    ensures var r := UpsertAll(t, batch, true); r.Ok? ==> BodiesAgree(r.value, Overlay(trace, batch))
  {
    if batch != [] {
      FullUpsertBodies(t, batch[..|batch| - 1], trace);
    }
  }

  lemma {:induction false} SummaryUpsertBodies(t: Tables, batch: seq<SummaryMessage>, trace: map<string, Body>)
    requires BodiesAgree(t, trace)
    ensures var r := UpsertAll(t, batch, false); r.Ok? ==> BodiesAgree(r.value, trace)
  {
    if batch != [] {
      SummaryUpsertBodies(t, batch[..|batch| - 1], trace);
    }
  }

  lemma DeleteBodies(t: Tables, ids: set<string>, trace: map<string, Body>)
    requires BodiesAgree(t, trace)
    ensures BodiesAgree(DeleteRows(t, ids), trace - ids)
  {
  }

  lemma EditKeepsBodies(t: Tables, id: string, action: MailAction, trace: map<string, Body>)
    requires BodiesAgree(t, trace) && !Deletes(action)
    ensures BodiesAgree(ActOn(t, id, action), trace)
  {
  }

  lemma {:induction false} ActionBodies(t: Tables, action: MailAction, k: nat, trace: map<string, Body>)
    requires BodiesAgree(t, trace) && k <= |action.ids|
    ensures BodiesAgree(ApplyAction(t, action, k),
                        if Deletes(action) then trace - Elements(action.ids[..k]) else trace)
  {
    if k == 0 {
      assert trace - Elements(action.ids[..0]) == trace;
    } else {
      ActionBodies(t, action, k - 1, trace);
      var before := ApplyAction(t, action, k - 1);
      var id := action.ids[k - 1];
      assert action.ids[..k] == action.ids[..k - 1] + [id];
      if Deletes(action) {
        var kept := trace - Elements(action.ids[..k - 1]);
        DeleteBodies(before, {id}, kept);
        assert kept - {id} == trace - Elements(action.ids[..k]);
      } else {
        EditKeepsBodies(before, id, action, trace);
      }
    }
  }

  lemma CommandBodies(t: Tables, c: Command, trace: map<string, Body>)
    requires BodiesAgree(t, trace)
    ensures Outcome(t, c).Ok? ==>
      BodiesAgree(After(t, c), if c.FullUpsert? then Overlay(trace, c.batch) else trace - Deleted(t, c))
  {
    match c
    case FullUpsert(batch) => FullUpsertBodies(t, batch, trace);
    case SummaryUpsert(summaries) =>
      SummaryUpsertBodies(t, summaries, trace);
      assert trace - {} == trace;
    case Sync(account, mailbox, page) =>
      if PageEmpty(page) {
        assert trace - {} == trace;
      } else {
        var base := if page.reset then WithoutCursor(t, account, mailbox) else t;
        var deletes := PageDeletes(t, account, mailbox, page);
        DeleteBodies(base, deletes, trace);
        SummaryUpsertBodies(DeleteRows(base, deletes), page.messages, trace - deletes);
      }
    case Confirm(action) =>
      ActionBodies(t, action, |action.ids|, trace);
      assert action.ids[..|action.ids|] == action.ids;
      assert trace - {} == trace;
    case Remove(account) =>
      DeleteBodies(t, AccountIds(t, account), trace);
    case _ =>
      assert trace - {} == trace;
  }

  /** After any run each row's body is that of the last full upsert since the row was inserted, and is
      marked loaded exactly when there was one: summaries and sync pages never overwrite it. */
  lemma {:induction false} BodiesFollowFullUpserts(commands: seq<Command>)
    ensures BodiesAgree(Run(commands), LastFullBodies(commands))
  {
    if commands != [] {
      var earlier := commands[..|commands| - 1];
      BodiesFollowFullUpserts(earlier);
      CommandBodies(Run(earlier), commands[|commands| - 1], LastFullBodies(earlier));
    }
  }

  // ----- Referential integrity -----

  lemma {:induction false} UpsertAllKeepsKeys(t: Tables, batch: seq<Message>, bodyLoaded: bool)
    requires ForeignKeys(t)
    ensures var r := UpsertAll(t, batch, bodyLoaded);
      r.Ok? ==> (ForeignKeys(r.value) && r.value.accounts == t.accounts && r.value.mailboxes == t.mailboxes
                 && r.value.cursors == t.cursors)
  {
    if batch != [] {
      UpsertAllKeepsKeys(t, batch[..|batch| - 1], bodyLoaded);
    }
  }

  lemma {:induction false} ActionKeepsKeys(t: Tables, action: MailAction, k: nat)
    requires ForeignKeys(t) && k <= |action.ids|
    ensures var r := ApplyAction(t, action, k);
      ForeignKeys(r) && r.accounts == t.accounts && r.mailboxes == t.mailboxes && r.cursors == t.cursors
  {
    if k > 0 {
      ActionKeepsKeys(t, action, k - 1);
    }
  }

  /** No run leaves a message, mailbox or cursor without its account. */
  lemma {:induction false} RunKeepsKeys(commands: seq<Command>)
    ensures ForeignKeys(Run(commands))
  {
    if commands != [] {
      var t := Run(commands[..|commands| - 1]);
      RunKeepsKeys(commands[..|commands| - 1]);
      match commands[|commands| - 1]
      case FullUpsert(batch) => UpsertAllKeepsKeys(t, batch, true);
      case SummaryUpsert(summaries) => UpsertAllKeepsKeys(t, summaries, false);
      case Sync(account, mailbox, page) =>
        var base := if page.reset then WithoutCursor(t, account, mailbox) else t;
        UpsertAllKeepsKeys(DeleteRows(base, PageDeletes(t, account, mailbox, page)), page.messages, false);
      case Confirm(action) => ActionKeepsKeys(t, action, |action.ids|);
      case _ =>
    }
  }
}
