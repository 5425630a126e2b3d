/** The mail tables of the SQLite cache. A transaction is one function from tables to tables;
    the `Repository` class runs the statements in the order the daemon issues them. */
module Storage {
  import opened Wrappers
  import opened StorageErrors
  import opened StableId
  import Utf8

  datatype Address = Address(name: string, address: string)

  datatype Body = Body(
    to: seq<Address>, cc: seq<Address>, bcc: seq<Address>,
    text: Option<string>, html: Option<string>, attachments: seq<string>)

  const EMPTY_BODY := Body([], [], [], None, None, [])

  datatype ProviderData = ProviderData(messageId: Option<string>, references: seq<string>, inReplyTo: seq<string>)

  datatype Summary = Summary(
    accountId: string, mailboxId: Option<string>, threadId: Option<string>, subject: string,
    author: Option<Address>, timestamp: int, read: bool, starred: bool, snippet: string,
    hasAttachments: bool, labels: seq<string>, providerData: ProviderData)

  datatype Message = Message(id: string, summary: Summary, body: Body)

  const EMPTY_SUMMARY :=
    Summary("", None, None, "", None, 0, false, false, "", false, [], ProviderData(None, [], []))

  /** A summary in the form the upsert takes. */
  type SummaryMessage = m: Message | m.body == EMPTY_BODY witness Message("", EMPTY_SUMMARY, EMPTY_BODY)

  datatype Row = Row(summary: Summary, body: Body, bodyLoaded: bool)

  /** A row of the full-text table without its message id, which keys the postings below. */
  datatype IndexRow = IndexRow(subject: string, author: string, snippet: string, text: string)

  datatype Tables = Tables(
    accounts: set<string>,
    mailboxes: set<(string, string)>,
    cursors: map<(string, string), string>,
    messages: map<string, Row>,
    index: map<string, seq<IndexRow>>,
    revision: nat)

  const EMPTY_TABLES := Tables({}, {}, map[], map[], map[], 0)

  function TextOr(value: Option<string>): string { if value.Some? then value.value else "" }

  /** What the insert trigger writes for a message row. */
  function Projection(row: Row): IndexRow
  {
    IndexRow(
      row.summary.subject,
      match row.summary.author
      case Some(author) => author.name + " " + author.address
      case None => " ",
      row.summary.snippet,
      TextOr(row.body.text))
  }

  /** The WHEN clause of the update trigger. */
  predicate ContentChanged(before: Row, after: Row)
  {
    || before.summary.subject != after.summary.subject
    || before.summary.author != after.summary.author
    || before.summary.snippet != after.summary.snippet
    || before.body.text != after.body.text
  }

  function InsertRow(t: Tables, id: string, row: Row): Tables
    requires id !in t.messages
  {
    var postings := if id in t.index then t.index[id] else [];
    t.(messages := t.messages[id := row], index := t.index[id := postings + [Projection(row)]])
  }

  function UpdateRow(t: Tables, id: string, row: Row): Tables
    requires id in t.messages
  {
    t.(messages := t.messages[id := row],
       index := if ContentChanged(t.messages[id], row) then t.index[id := [Projection(row)]] else t.index)
  }

  function DeleteRows(t: Tables, ids: set<string>): Tables
  {
    t.(messages := t.messages - ids, index := t.index - (ids * t.messages.Keys))
  }

  /** INSERT ... ON CONFLICT(id) DO UPDATE: a summary never overwrites the body of a row. */
  function UpsertMessage(t: Tables, message: Message, bodyLoaded: bool): Result<Tables, StorageError>
  {
    if message.summary.accountId !in t.accounts then Err(Sqlite)
    else if message.id !in t.messages then
      Ok(InsertRow(t, message.id, Row(message.summary, message.body, bodyLoaded)))
    else
      var before := t.messages[message.id];
      Ok(UpdateRow(t, message.id,
        Row(message.summary, if bodyLoaded then message.body else before.body, before.bodyLoaded || bodyLoaded)))
  }

  function UpsertChecked(t: Tables, message: Message, bodyLoaded: bool): Result<Tables, StorageError>
  {
    if !IsNormalizedMessageId(message.summary.accountId, message.id) then Err(InvalidData)
    else UpsertMessage(t, message, bodyLoaded)
  }

  /** The statements of a batch in order; the first failure decides. */
  function UpsertAll(t: Tables, batch: seq<Message>, bodyLoaded: bool): Result<Tables, StorageError>
  {
    if batch == [] then Ok(t)
    else match UpsertAll(t, batch[..|batch| - 1], bodyLoaded)
      case Err(error) => Err(error)
      case Ok(partial) => UpsertChecked(partial, batch[|batch| - 1], bodyLoaded)
  }

  lemma {:induction false} UpsertAllFails(t: Tables, batch: seq<Message>, bodyLoaded: bool, k: nat)
    requires k <= |batch| && UpsertAll(t, batch[..k], bodyLoaded).Err?
    ensures UpsertAll(t, batch, bodyLoaded) == UpsertAll(t, batch[..k], bodyLoaded)
  {
    if k < |batch| {
      var shorter := batch[..|batch| - 1];
      assert shorter[..k] == batch[..k];
      UpsertAllFails(t, shorter, bodyLoaded, k);
    } else {
      assert batch[..k] == batch;
    }
  }

  function BumpRevision(t: Tables): Tables { t.(revision := t.revision + 1) }

  /** One transaction: all of the batch or nothing. */
  function UpsertBatch(t: Tables, batch: seq<Message>, bodyLoaded: bool): Result<Tables, StorageError>
  {
    if batch == [] then Ok(t)
    else match UpsertAll(t, batch, bodyLoaded)
      case Err(error) => Err(error)
      case Ok(done) => Ok(BumpRevision(done))
  }

  // ----- Sync pages -----

  datatype SyncPage = SyncPage(
    messages: seq<SummaryMessage>, removed: seq<string>, cursor: Option<string>, reset: bool)

  predicate InScope(row: Row, account: string, mailbox: string)
  {
    row.summary.accountId == account && row.summary.mailboxId == Some(mailbox)
  }

  function ScopeIds(t: Tables, account: string, mailbox: string): set<string>
  {
    set id | id in t.messages && InScope(t.messages[id], account, mailbox)
  }

  predicate PageMessageAllowed(message: Message, account: string, mailbox: string)
  {
    && message.summary.accountId == account
    && message.summary.mailboxId == Some(mailbox)
    && IsNormalizedMessageId(account, message.id)
  }

  predicate RemovalAllowed(id: string, account: string, messages: seq<Message>)
  {
    && IsNormalizedMessageId(account, id)
    && forall i :: 0 <= i < |messages| ==> messages[i].id != id
  }

  predicate CursorAllowed(cursor: Option<string>)
  {
    cursor.Some? ==> cursor.value != "" && |Utf8.Encode(cursor.value)| <= 1024 && '\0' !in cursor.value
  }

  predicate PageWellFormed(page: SyncPage, account: string, mailbox: string)
  {
    && (forall i :: 0 <= i < |page.messages| ==> PageMessageAllowed(page.messages[i], account, mailbox))
    && (forall i :: 0 <= i < |page.removed| ==> RemovalAllowed(page.removed[i], account, page.messages))
    && CursorAllowed(page.cursor)
  }

  predicate PageEmpty(page: SyncPage)
  {
    !page.reset && page.messages == [] && page.removed == [] && page.cursor.None?
  }

  /** A removal target is either gone already or in this mailbox. */
  predicate RemovalInScope(t: Tables, id: string, account: string, mailbox: string)
  {
    id in t.messages ==> InScope(t.messages[id], account, mailbox)
  }

  function ListedInScope(t: Tables, listed: seq<string>, account: string, mailbox: string): set<string>
  {
    set id | id in listed && id in t.messages && InScope(t.messages[id], account, mailbox)
  }

  /** The rows a page deletes before it inserts any. */
  function PageDeletes(t: Tables, account: string, mailbox: string, page: SyncPage): set<string>
  {
    (if page.reset then ScopeIds(t, account, mailbox) else {}) + ListedInScope(t, page.removed, account, mailbox)
  }

  function WithoutCursor(t: Tables, account: string, mailbox: string): Tables
  {
    t.(cursors := t.cursors - {(account, mailbox)})
  }

  function WithCursor(t: Tables, account: string, mailbox: string, cursor: Option<string>): Tables
  {
    if cursor.None? then t else t.(cursors := t.cursors[(account, mailbox) := cursor.value])
  }

  /** Rows, removals and cursor of one provider page in one transaction. */
  function ApplySyncPage(t: Tables, account: string, mailbox: string, page: SyncPage): Result<Tables, StorageError>
  {
    if !PageWellFormed(page, account, mailbox) then Err(InvalidData)
    else if PageEmpty(page) then Ok(t)
    else if (account, mailbox) !in t.mailboxes then Err(NotFound)
    else if exists i :: 0 <= i < |page.removed| && !RemovalInScope(t, page.removed[i], account, mailbox) then
      Err(InvalidData)
    else
      var cleared := DeleteRows(if page.reset then WithoutCursor(t, account, mailbox) else t,
                                PageDeletes(t, account, mailbox, page));
      match UpsertAll(cleared, page.messages, false)
      case Err(error) => Err(error)
      case Ok(done) => Ok(BumpRevision(WithCursor(done, account, mailbox, page.cursor)))
  }

  // ----- Confirmed mail actions -----

  datatype MailAction =
    | MarkRead(ids: seq<string>, read: bool)
    | Star(ids: seq<string>, starred: bool)
    | Archive(ids: seq<string>)
    | Trash(ids: seq<string>)
    | Move(ids: seq<string>, mailboxId: string)
    | SetLabels(ids: seq<string>, labels: seq<string>)

  predicate Deletes(action: MailAction) { action.Archive? || action.Trash? }

  function Edited(row: Row, action: MailAction): Row
    requires !Deletes(action)
  {
    match action
    case MarkRead(_, read) => row.(summary := row.summary.(read := read))
    case Star(_, starred) => row.(summary := row.summary.(starred := starred))
    case Move(_, mailboxId) => row.(summary := row.summary.(mailboxId := Some(mailboxId)))
    case SetLabels(_, labels) => row.(summary := row.summary.(labels := labels))
  }

  function ActOn(t: Tables, id: string, action: MailAction): Tables
  {
    if id !in t.messages then t
    else if Deletes(action) then DeleteRows(t, {id})
    else UpdateRow(t, id, Edited(t.messages[id], action))
  }

  /** The first `k` statements of a confirmed action. */
  function ApplyAction(t: Tables, action: MailAction, k: nat): Tables
    requires k <= |action.ids|
  {
    if k == 0 then t else ActOn(ApplyAction(t, action, k - 1), action.ids[k - 1], action)
  }

  function ConfirmAction(t: Tables, action: MailAction): Tables
  {
    BumpRevision(ApplyAction(t, action, |action.ids|))
  }

  /** Read and star actions without messages are refused here too; queueing refuses every action without messages. */
  predicate Refused(action: MailAction) { action.ids == [] && (action.MarkRead? || action.Star?) }

  function FinishAction(t: Tables, action: MailAction): Result<Tables, StorageError>
  {
    if Refused(action) then Err(InvalidData) else Ok(ConfirmAction(t, action))
  }

  /** A row of the operations table for a mail action. */
  datatype OperationState = Pending | Succeeded | Failed(error: string)

  // ----- Accounts -----

  function AccountIds(t: Tables, account: string): set<string>
  {
    set id | id in t.messages && t.messages[id].summary.accountId == account
  }

  /** Deleting an account row cascades to its messages, mailboxes and cursors; row triggers fire. */
  function RemoveAccount(t: Tables, account: string): Result<Tables, StorageError>
  {
    if account !in t.accounts then Err(NotFound)
    else
      var cleared := DeleteRows(t, AccountIds(t, account));
      Ok(BumpRevision(cleared.(
        accounts := t.accounts - {account},
        mailboxes := (set m | m in t.mailboxes && m.0 != account),
        cursors := map key | key in t.cursors && key.0 != account :: t.cursors[key])))
  }

  function UpsertAccount(t: Tables, account: string): Tables
  {
    BumpRevision(t.(accounts := t.accounts + {account}))
  }

  function UpsertMailboxes(t: Tables, mailboxes: seq<(string, string)>): Result<Tables, StorageError>
  {
    if mailboxes == [] then Ok(t)
    else if exists i :: 0 <= i < |mailboxes| && mailboxes[i].0 !in t.accounts then Err(Sqlite)
    else Ok(BumpRevision(t.(mailboxes := t.mailboxes + set m | m in mailboxes)))
  }

  /** Rows reference accounts and cursors reference mailboxes that exist. */
  predicate ForeignKeys(t: Tables)
  {
    && (forall id :: id in t.messages ==> t.messages[id].summary.accountId in t.accounts)
    && (forall m :: m in t.mailboxes ==> m.0 in t.accounts)
    && t.cursors.Keys <= t.mailboxes
  }

  class Repository {
    var tables: Tables
    var operations: map<string, OperationState>

    constructor ()
      ensures tables == EMPTY_TABLES && operations == map[]
    {
      tables, operations := EMPTY_TABLES, map[];
    }

    method UpsertMessagesWithBodyState(messages: seq<Message>, bodyLoaded: bool) returns (r: Result<nat, StorageError>)
      modifies this`tables
      ensures UpsertBatch(old(tables), messages, bodyLoaded) == (if r.Ok? then Ok(tables) else Err(r.error))
      ensures r.Err? ==> tables == old(tables)
      ensures r.Ok? ==> r.value == tables.revision
    {
      if messages == [] {
        return Ok(tables.revision);
      }
      var transaction := tables;
      for i := 0 to |messages|
        invariant tables == old(tables)
        invariant UpsertAll(old(tables), messages[..i], bodyLoaded) == Ok(transaction)
      {
        assert messages[..i + 1][..i] == messages[..i];
        var message := messages[i];
        if !IsNormalizedMessageId(message.summary.accountId, message.id) {
          UpsertAllFails(old(tables), messages, bodyLoaded, i + 1);
          return Err(InvalidData);
        }
        var executed := UpsertMessage(transaction, message, bodyLoaded);
        if executed.Err? {
          UpsertAllFails(old(tables), messages, bodyLoaded, i + 1);
          return Err(executed.error);
        }
        transaction := executed.value;
      }
      assert messages[..|messages|] == messages;
      tables := BumpRevision(transaction);
      r := Ok(tables.revision);
    }

    /** Validates a page, then deletes, upserts and moves the cursor in one transaction. */
    method ApplyMailboxSyncPage(account: string, mailbox: string, page: SyncPage) returns (r: Result<nat, StorageError>)
      modifies this`tables
      ensures ApplySyncPage(old(tables), account, mailbox, page) == (if r.Ok? then Ok(tables) else Err(r.error))
      ensures r.Err? ==> tables == old(tables)
      ensures r.Ok? ==> r.value == tables.revision
    {
      var wellFormed := ValidatePage(account, mailbox, page);
      if !wellFormed {
        return Err(InvalidData);
      }
      if PageEmpty(page) {
        return Ok(tables.revision);
      }
      if (account, mailbox) !in tables.mailboxes {
        return Err(NotFound);
      }
      var inScope := ValidateRemovals(tables, account, mailbox, page.removed);
      if !inScope {
        return Err(InvalidData);
      }
      var transaction := tables;
      if page.reset {
        transaction := WithoutCursor(DeleteRows(transaction, ScopeIds(tables, account, mailbox)), account, mailbox);
      }
      transaction := DeleteListed(transaction, page.removed, account, mailbox);
      PageDeletesTogether(tables, account, mailbox, page);
      var executed := InsertSummaries(transaction, account, mailbox, page.messages);
      if executed.Err? {
        return Err(executed.error);
      }
      tables := BumpRevision(WithCursor(executed.value, account, mailbox, page.cursor));
      r := Ok(tables.revision);
    }

    method ValidatePage(account: string, mailbox: string, page: SyncPage) returns (ok: bool)
      ensures ok <==> PageWellFormed(page, account, mailbox)
    {
      for i := 0 to |page.messages|
        invariant forall k :: 0 <= k < i ==> PageMessageAllowed(page.messages[k], account, mailbox)
      {
        if !PageMessageAllowed(page.messages[i], account, mailbox) {
          return false;
        }
      }
      for i := 0 to |page.removed|
        invariant forall k :: 0 <= k < i ==> RemovalAllowed(page.removed[k], account, page.messages)
      {
        if !RemovalAllowed(page.removed[i], account, page.messages) {
          return false;
        }
      }
      ok := CursorAllowed(page.cursor);
    }

    method ValidateRemovals(t: Tables, account: string, mailbox: string, removed: seq<string>) returns (ok: bool)
      ensures ok <==> forall i :: 0 <= i < |removed| ==> RemovalInScope(t, removed[i], account, mailbox)
    {
      for i := 0 to |removed|
        invariant forall k :: 0 <= k < i ==> RemovalInScope(t, removed[k], account, mailbox)
      {
        if !RemovalInScope(t, removed[i], account, mailbox) {
          return false;
        }
      }
      ok := true;
    }

    method InsertSummaries(t: Tables, account: string, mailbox: string, messages: seq<SummaryMessage>)
      returns (r: Result<Tables, StorageError>)
      requires forall i :: 0 <= i < |messages| ==> PageMessageAllowed(messages[i], account, mailbox)
      ensures r == UpsertAll(t, messages, false)
    {
      var transaction := t;
      for i := 0 to |messages|
        invariant UpsertAll(t, messages[..i], false) == Ok(transaction)
      {
        assert messages[..i + 1][..i] == messages[..i];
        var executed := UpsertMessage(transaction, messages[i], false);
        if executed.Err? {
          UpsertAllFails(t, messages, false, i + 1);
          return Err(executed.error);
        }
        transaction := executed.value;
      }
      assert messages[..|messages|] == messages;
      r := Ok(transaction);
    }

    method DeleteListed(t: Tables, listed: seq<string>, account: string, mailbox: string) returns (transaction: Tables)
      ensures transaction == DeleteRows(t, ListedInScope(t, listed, account, mailbox))
    {
      transaction := t;
      for i := 0 to |listed|
        invariant transaction == DeleteRows(t, ListedInScope(t, listed[..i], account, mailbox))
      {
        var id := listed[i];
        if id in transaction.messages && InScope(transaction.messages[id], account, mailbox) {
          transaction := DeleteRows(transaction, {id});
        }
        DeleteOneMore(t, listed, i, account, mailbox);
      }
      assert listed[..|listed|] == listed;
    }

    /** Settles a queued action. Only a success changes rows, and it changes all of them together with the operation;
        an unknown operation and a refused action change nothing. */
    method FinishMailAction(operationId: string, action: MailAction, error: Option<string>)
      returns (r: Result<nat, StorageError>)
      modifies this
      ensures operationId !in old(operations) ==> r == Err(NotFound)
      ensures operationId in old(operations) && error.None? && Refused(action) ==> r == Err(InvalidData)
      ensures r.Err? <==> operationId !in old(operations) || (error.None? && Refused(action))
      ensures r.Err? ==> tables == old(tables) && operations == old(operations)
      ensures r.Ok? ==>
        && r.value == tables.revision
        && (if error.None? then FinishAction(old(tables), action) == Ok(tables) else tables == old(tables))
        && operations == old(operations)[operationId := if error.None? then Succeeded else Failed(error.value)]
    {
      if operationId !in operations {
        return Err(NotFound);
      }
      if error.Some? {
        operations := operations[operationId := Failed(error.value)];
        return Ok(tables.revision);
      }
      if Refused(action) {
        return Err(InvalidData);
      }
      var transaction := tables;
      for i := 0 to |action.ids|
        invariant tables == old(tables) && operations == old(operations)
        invariant transaction == ApplyAction(tables, action, i)
      {
        transaction := ActOn(transaction, action.ids[i], action);
      }
      operations := operations[operationId := Succeeded];
      tables := BumpRevision(transaction);
      r := Ok(tables.revision);
    }
  }

  lemma DeleteTwice(t: Tables, a: set<string>, b: set<string>)
    ensures DeleteRows(DeleteRows(t, a), b) == DeleteRows(t, a + b)
  {
    var x, y := DeleteRows(DeleteRows(t, a), b), DeleteRows(t, a + b);
    assert x.messages == y.messages;
    assert x.index == y.index;
  }

  lemma DeleteOneMore(t: Tables, listed: seq<string>, i: nat, account: string, mailbox: string)
    requires i < |listed|
    ensures var before := DeleteRows(t, ListedInScope(t, listed[..i], account, mailbox));
      var id := listed[i];
      DeleteRows(t, ListedInScope(t, listed[..i + 1], account, mailbox))
      == if id in before.messages && InScope(before.messages[id], account, mailbox)
         then DeleteRows(before, {id}) else before
  {
    var done := ListedInScope(t, listed[..i], account, mailbox);
    var id := listed[i];
    assert listed[..i + 1] == listed[..i] + [id];
    if id in t.messages && InScope(t.messages[id], account, mailbox) {
      DeleteTwice(t, done, {id});
      assert ListedInScope(t, listed[..i + 1], account, mailbox) == done + {id};
    } else {
      assert ListedInScope(t, listed[..i + 1], account, mailbox) == done;
    }
  }

  /** Deleting the generation and then the listed rows deletes exactly `PageDeletes`. */
  lemma PageDeletesTogether(t: Tables, account: string, mailbox: string, page: SyncPage)
    ensures
      var first :=
        if page.reset then WithoutCursor(DeleteRows(t, ScopeIds(t, account, mailbox)), account, mailbox) else t;
      DeleteRows(first, ListedInScope(first, page.removed, account, mailbox))
      == DeleteRows(if page.reset then WithoutCursor(t, account, mailbox) else t,
                    PageDeletes(t, account, mailbox, page))
  {
    if page.reset {
      var base := WithoutCursor(t, account, mailbox);
      var scope := ScopeIds(t, account, mailbox);
      var first := WithoutCursor(DeleteRows(t, scope), account, mailbox);
      assert first == DeleteRows(base, scope);
      assert ListedInScope(first, page.removed, account, mailbox) == {};
      DeleteTwice(base, scope, {});
      assert scope + ListedInScope(t, page.removed, account, mailbox) == scope + {};
    } else {
      assert {} + ListedInScope(t, page.removed, account, mailbox) == ListedInScope(t, page.removed, account, mailbox);
    }
  }
}
