/** No mail is skipped, generations never mix, and only dead messages are removed: over every run. */
module MailboxSyncSafety {
  import opened Wrappers
  import opened Text
  import opened StableId
  import opened Storage
  import opened ImapUids
  import opened MailboxSync
  import CacheHistory
  import Utf8

  // ----- Invariant -----

  function Key(config: Config): (string, string) { (config.account, config.mailbox) }

  predicate Listed(config: Config, t: Tables) { Key(config) in t.mailboxes }

  predicate HasCursor(config: Config, t: Tables, cursor: UidCursor)
  {
    Key(config) in t.cursors && ParseCursor(t.cursors[Key(config)]) == Some(cursor)
  }

  /** The summary is that of the message with these headers. */
  predicate Shows(summary: Summary, headers: Headers)
  {
    && summary.subject == headers.subject && summary.author == headers.author
    && summary.hasAttachments == headers.hasAttachments && summary.providerData == headers.providerData
    && (headers.date.Some? ==> summary.timestamp == headers.date.value)
  }

  /** A row stored under the key of a UID the server assigned in this generation, showing that message. */
  predicate RowOf(config: Config, history: History, uidValidity: nat, id: string, row: Row)
  {
    match KeyOf(config.account, id)
    case None => false
    case Some(parsed) =>
      && parsed.mailbox == config.mailbox && parsed.uidValidity == uidValidity
      && (uidValidity, parsed.uid) in history
      && id == MessageKey(config.account, config.mailbox, uidValidity, parsed.uid)
      && Shows(row.summary, history[(uidValidity, parsed.uid)])
  }

  predicate RowsOf(config: Config, history: History, t: Tables, uidValidity: nat)
  {
    forall id :: id in ScopeIds(t, config.account, config.mailbox) ==>
      RowOf(config, history, uidValidity, id, t.messages[id])
  }

  function IdOf(config: Config, uidValidity: nat, uid: nat): string
  {
    MessageKey(config.account, config.mailbox, uidValidity, uid)
  }

  /** Every live UID above the bootstrap and up to the cursor is cached. */
  predicate NothingSkipped(config: Config, s: System, cursor: UidCursor)
  {
    cursor.uidValidity == s.server.uidValidity ==>
      forall u :: u in s.server.live && s.bootstrapUid < u <= cursor.lastUid ==>
        IdOf(config, cursor.uidValidity, u) in s.tables.messages
  }

  predicate CursorBounded(server: Server, cursor: UidCursor)
  {
    && cursor.uidValidity <= server.uidValidity
    && (cursor.uidValidity == server.uidValidity ==> cursor.lastUid < server.uidNext)
  }

  predicate CacheInv(config: Config, s: System)
  {
    if Key(config) !in s.tables.cursors then ScopeIds(s.tables, config.account, config.mailbox) == {}
    else match ParseCursor(s.tables.cursors[Key(config)])
      case None => false
      case Some(cursor) =>
        && CursorBounded(s.server, cursor)
        && RowsOf(config, s.history, s.tables, cursor.uidValidity)
        && NothingSkipped(config, s, cursor)
  }

  /** What was selected is no newer than the server. */
  predicate SelectedInv(server: Server, selected: Selected)
  {
    && 0 < selected.uidValidity <= server.uidValidity
    && 0 < selected.uidNext <= U32_MAX
    && (selected.uidValidity == server.uidValidity ==> selected.uidNext <= server.uidNext)
  }

  /** A reconcile id names an assigned UID, and its row is still in the mailbox unless the mailbox is gone. */
  predicate ReconcileInv(config: Config, s: System, id: string)
  {
    && AssignedId(config, s.history, id)
    && (Listed(config, s.tables) ==> id in ScopeIds(s.tables, config.account, config.mailbox))
  }

  predicate AssignedId(config: Config, history: History, id: string)
  {
    match KeyOf(config.account, id)
    case None => false
    case Some(parsed) => (parsed.uidValidity, parsed.uid) in history
  }

  predicate ReconciledInv(config: Config, s: System, selected: Selected, reconciled: seq<(nat, string)>)
  {
    forall i :: 0 <= i < |reconciled| ==>
      && KeyOf(config.account, reconciled[i].1) ==
        Some(StableImapId(config.mailbox, selected.uidValidity, reconciled[i].0))
      && ReconcileInv(config, s, reconciled[i].1)
  }

  function AfterUid(previous: Option<UidCursor>, selected: Selected): Option<nat>
  {
    PlanOf(previous, selected).afterUid
  }

  /** The cursor to be stored stays below UIDNEXT, or where it was. */
  predicate HighInv(previous: Option<UidCursor>, selected: Selected, highUid: nat)
  {
    var after := AfterUid(previous, selected);
    highUid < selected.uidNext || (after.Some? && highUid == after.value)
  }

  predicate Covered(s: System, previous: Option<UidCursor>, selected: Selected, highUid: nat, uids: set<nat>)
  {
    var after := AfterUid(previous, selected);
    after.Some? && selected.uidValidity == s.server.uidValidity ==>
      forall u :: u in s.server.live && after.value < u <= highUid ==> u in uids
  }

  function EnvelopeUids(envelopes: seq<Envelope>): set<nat>
  {
    set i | 0 <= i < |envelopes| :: envelopes[i].uid
  }

  predicate EnvelopeOf(history: History, uidValidity: nat, envelope: Envelope)
  {
    && (uidValidity, envelope.uid) in history
    && envelope.mail.headers == history[(uidValidity, envelope.uid)]
    && (envelope.mail.headers.date.Some? ==> envelope.timestamp == envelope.mail.headers.date.value)
  }

  predicate EnvelopesOf(history: History, uidValidity: nat, envelopes: seq<Envelope>)
  {
    forall i :: 0 <= i < |envelopes| ==> EnvelopeOf(history, uidValidity, envelopes[i])
  }

  predicate MissingAreDead(server: Server, uidValidity: nat, reconciled: seq<(nat, string)>, envelopes: seq<Envelope>)
  {
    forall i :: 0 <= i < |reconciled| && !Fetched(envelopes, reconciled[i].0) ==>
      Dead(server, uidValidity, reconciled[i].0)
  }

  predicate PreviousInv(config: Config, s: System, previous: Option<UidCursor>)
  {
    && (Listed(config, s.tables) ==> CursorIs(config, s.tables, previous))
    && (previous.Some? ==> previous.value.InRange())
  }

  predicate PhaseInv(config: Config, s: System)
  {
    match s.phase
    case Idle => true
    case Prepared(previous, reconcile) =>
      && PreviousInv(config, s, previous)
      && (forall i :: 0 <= i < |reconcile| ==> ReconcileInv(config, s, reconcile[i]))
    case Selecting(previous, reconcile, selected) =>
      && PreviousInv(config, s, previous) && SelectedInv(s.server, selected)
      && (forall i :: 0 <= i < |reconcile| ==> ReconcileInv(config, s, reconcile[i]))
    case Bootstrapping(previous, selected, _, _, _) =>
      && PreviousInv(config, s, previous) && SelectedInv(s.server, selected) && AfterUid(previous, selected).None?
    case Searched(previous, selected, newUids, highUid, reconciled) =>
      && PreviousInv(config, s, previous) && SelectedInv(s.server, selected)
      && ReconciledInv(config, s, selected, reconciled)
      && HighInv(previous, selected, highUid)
      && (AfterUid(previous, selected).None? ==> highUid == PlanOf(previous, selected).throughUid)
      && Covered(s, previous, selected, highUid, set u | u in newUids)
    case Collected(previous, selected, highUid, reconciled, envelopes) =>
      && PreviousInv(config, s, previous) && SelectedInv(s.server, selected)
      && ReconciledInv(config, s, selected, reconciled)
      && HighInv(previous, selected, highUid)
      && (AfterUid(previous, selected).None? ==> highUid == PlanOf(previous, selected).throughUid)
      && Covered(s, previous, selected, highUid, EnvelopeUids(envelopes))
      && MissingAreDead(s.server, selected.uidValidity, reconciled, envelopes)
      && (selected.uidValidity == s.server.uidValidity ==> EnvelopesOf(s.history, selected.uidValidity, envelopes))
    case Confirmed(previous, selected, highUid, reconciled, envelopes) =>
      && PreviousInv(config, s, previous) && SelectedInv(s.server, selected)
      && ReconciledInv(config, s, selected, reconciled)
      && HighInv(previous, selected, highUid)
      && (AfterUid(previous, selected).None? ==> highUid == PlanOf(previous, selected).throughUid)
      && Covered(s, previous, selected, highUid, EnvelopeUids(envelopes))
      && MissingAreDead(s.server, selected.uidValidity, reconciled, envelopes)
      && EnvelopesOf(s.history, selected.uidValidity, envelopes)
  }

  predicate Inv(config: Config, s: System)
  {
    && ServerValid(s.server, s.history) && ForeignKeys(s.tables) && NoStrays(config, s.tables)
    && CacheInv(config, s) && PhaseInv(config, s)
  }

  // ----- Steps of the server and of the rest of the daemon -----

  predicate ServerMoves(s: System, s': System)
  {
    ServerStep(s.server, s.history, s'.server, s'.history) && s' == s.(server := s'.server, history := s'.history)
  }

  lemma ServerKeepsCache(config: Config, s: System, s': System)
    requires CacheInv(config, s) && ServerMoves(s, s')
    ensures CacheInv(config, s')
  {
  }

  lemma ServerKeepsEarlyPhase(config: Config, s: System, s': System)
    requires PhaseInv(config, s) && ServerMoves(s, s')
    requires s.phase.Idle? || s.phase.Prepared? || s.phase.Selecting? || s.phase.Bootstrapping?
    ensures PhaseInv(config, s')
  {
  }

  lemma ServerKeepsReconciled(config: Config, s: System, s': System, selected: Selected, reconciled: seq<(nat, string)>)
    requires ReconciledInv(config, s, selected, reconciled) && ServerMoves(s, s')
    ensures ReconciledInv(config, s', selected, reconciled)
  {
  }

  lemma ServerKeepsMissing(
      s: System, s': System, uidValidity: nat, reconciled: seq<(nat, string)>, envelopes: seq<Envelope>)
    requires MissingAreDead(s.server, uidValidity, reconciled, envelopes) && ServerMoves(s, s')
    ensures MissingAreDead(s'.server, uidValidity, reconciled, envelopes)
  {
    forall i | 0 <= i < |reconciled| && !Fetched(envelopes, reconciled[i].0)
      ensures Dead(s'.server, uidValidity, reconciled[i].0)
    {
      DeadStaysDead(s.server, s.history, s'.server, s'.history, uidValidity, reconciled[i].0);
    }
  }

  lemma ServerKeepsLatePhase(config: Config, s: System, s': System)
    requires PhaseInv(config, s) && ServerMoves(s, s')
    requires s.phase.Searched? || s.phase.Collected? || s.phase.Confirmed?
    ensures PhaseInv(config, s')
  {
    ServerKeepsReconciled(config, s, s', s.phase.selected, s.phase.reconciled);
    if !s.phase.Searched? {
      ServerKeepsMissing(s, s', s.phase.selected.uidValidity, s.phase.reconciled, s.phase.envelopes);
    }
  }

  lemma ServerKeepsInv(config: Config, s: System, s': System)
    requires Inv(config, s) && ServerMoves(s, s')
    ensures Inv(config, s')
  {
    ServerKeepsCache(config, s, s');
    if s.phase.Searched? || s.phase.Collected? || s.phase.Confirmed? {
      ServerKeepsLatePhase(config, s, s');
    } else {
      ServerKeepsEarlyPhase(config, s, s');
    }
  }

  /** Scope ids, cursor and listing survive; rows keep what identifies them. */
  predicate TablesCompatible(config: Config, t: Tables, t': Tables)
  {
    && (Listed(config, t') ==> Listed(config, t))
    && (Listed(config, t') ==>
      ScopeIds(t', config.account, config.mailbox) == ScopeIds(t, config.account, config.mailbox))
    && (Listed(config, t') ==> (Key(config) in t'.cursors <==> Key(config) in t.cursors))
    && (Listed(config, t') && Key(config) in t.cursors ==> t'.cursors[Key(config)] == t.cursors[Key(config)])
  }

  lemma CompatibleTablesKeepPhase(config: Config, s: System, s': System)
    requires PhaseInv(config, s) && TablesCompatible(config, s.tables, s'.tables)
    requires s' == s.(tables := s'.tables)
    ensures PhaseInv(config, s')
  {
  }

  lemma OthersKeepInv(config: Config, s: System, s': System)
    requires Inv(config, s) && OthersStep(config, s.tables, s'.tables) && s' == s.(tables := s'.tables)
    ensures Inv(config, s')
  {
    CompatibleTablesKeepPhase(config, s, s');
    if Key(config) in s.tables.cursors {
      var cursor := ParseCursor(s.tables.cursors[Key(config)]).value;
      forall id | id in ScopeIds(s'.tables, config.account, config.mailbox)
        ensures RowOf(config, s'.history, cursor.uidValidity, id, s'.tables.messages[id])
      {
        assert RowOf(config, s.history, cursor.uidValidity, id, s.tables.messages[id]);
        assert SameIdentity(s.tables.messages[id].summary, s'.tables.messages[id].summary);
      }
      CachedStays(config, s, s', cursor);
    }
  }

  /** A cached UID is in the mailbox's scope, so whatever keeps the scope keeps it cached. */
  lemma CachedStays(config: Config, s: System, s': System, cursor: UidCursor)
    requires ServerValid(s.server, s.history) && s'.server == s.server && s'.bootstrapUid == s.bootstrapUid
    requires NoStrays(config, s.tables) && NothingSkipped(config, s, cursor)
    requires ScopeIds(s'.tables, config.account, config.mailbox) == ScopeIds(s.tables, config.account, config.mailbox)
    ensures NothingSkipped(config, s', cursor)
  {
    if cursor.uidValidity == s.server.uidValidity {
      forall u | u in s.server.live && s.bootstrapUid < u <= cursor.lastUid
        ensures IdOf(config, cursor.uidValidity, u) in s'.tables.messages
      {
        var id := IdOf(config, cursor.uidValidity, u);
        assert id in s.tables.messages;
        KeyRoundTrip(config.account, config.mailbox, cursor.uidValidity, u);
        assert NamesMailbox(config, id);
        assert id in ScopeIds(s.tables, config.account, config.mailbox);
      }
    }
  }

  lemma RemoveKeepsInv(config: Config, s: System, s': System)
    requires Inv(config, s) && RemoveStep(config, s.tables, s'.tables) && s' == s.(tables := s'.tables)
    ensures Inv(config, s')
  {
    CompatibleTablesKeepPhase(config, s, s');
  }

  lemma RelistKeepsInv(config: Config, s: System, s': System)
    requires Inv(config, s) && RelistStep(config, s, s')
    ensures Inv(config, s')
  {
  }

  // ----- Client steps -----

  lemma PrepareKeepsInv(config: Config, s: System, s': System)
    requires Inv(config, s) && Prepare(config, s, s')
    ensures Inv(config, s')
  {
  }

  lemma SelectKeepsInv(config: Config, s: System, s': System)
    requires Inv(config, s) && Select(s, s')
    ensures Inv(config, s')
  {
  }

  lemma {:induction false} ReconciledHolds(config: Config, s: System, selected: Selected, ids: seq<string>)
    requires forall i :: 0 <= i < |ids| ==> ReconcileInv(config, s, ids[i])
    ensures ReconciledInv(config, s, selected, Reconciled(config, selected.uidValidity, ids))
  {
    if ids != [] {
      ReconciledHolds(config, s, selected, ids[1..]);
      assert ReconcileInv(config, s, ids[0]);
    }
  }

  /** The found UIDs of an incremental search. */
  lemma SearchFound(config: Config, s: System, s': System, first: nat, covered: nat) returns (found: set<nat>)
    requires SearchSince(config, s, s')
    requires var plan := PlanOf(s.phase.previous, s.phase.selected);
      SearchRange(plan.afterUid.value, plan.throughUid) == Ok(Some((first, covered)))
    ensures forall u :: u in found <==> u in s.server.live && first <= u <= covered
    ensures var after := AfterUid(s.phase.previous, s.phase.selected).value;
      var page := IncrementalPage(found, after, covered, config.limit);
      s' == s.(phase := Searched(s.phase.previous, s.phase.selected, page.uids, page.highUid,
                                 Reconciled(config, s.phase.selected.uidValidity, s.phase.reconcile)))
  {
    var after := PlanOf(s.phase.previous, s.phase.selected).afterUid.value;
    var reply: seq<nat> :| SearchReply(s.server, first, covered, reply) &&
      var page := IncrementalPage((set u | u in reply), after, covered, config.limit);
      s' == s.(phase := Searched(s.phase.previous, s.phase.selected, page.uids, page.highUid,
                                 Reconciled(config, s.phase.selected.uidValidity, s.phase.reconcile)));
    found := (set u | u in reply);
  }

  lemma SearchedHolds(config: Config, s: System, s': System, uids: seq<nat>, highUid: nat)
    requires Inv(config, s) && s.phase.Selecting? && AfterUid(s.phase.previous, s.phase.selected).Some?
    requires s' == s.(phase := Searched(s.phase.previous, s.phase.selected, uids, highUid,
                                        Reconciled(config, s.phase.selected.uidValidity, s.phase.reconcile)))
    requires HighInv(s.phase.previous, s.phase.selected, highUid)
    requires Covered(s, s.phase.previous, s.phase.selected, highUid, set u | u in uids)
    ensures Inv(config, s')
  {
    ReconciledHolds(config, s, s.phase.selected, s.phase.reconcile);
  }

  lemma SearchSinceKeepsInv(config: Config, s: System, s': System)
    requires Inv(config, s) && SearchSince(config, s, s')
    ensures Inv(config, s')
  {
    var plan := PlanOf(s.phase.previous, s.phase.selected);
    var after := plan.afterUid.value;
    match SearchRange(after, plan.throughUid)
    case Err(_) =>
    case Ok(None) =>
      SearchedHolds(config, s, s', [], after);
    case Ok(Some((first, covered))) =>
      var found := SearchFound(config, s, s', first, covered);
      var page := IncrementalPage(found, after, covered, config.limit);
      PageCovers(found, after, covered, config.limit);
      SearchedHolds(config, s, s', page.uids, page.highUid);
  }

  lemma BootstrapKeepsInv(config: Config, s: System, s': System)
    requires Inv(config, s)
    requires StartBootstrap(config, s, s') || SearchWindow(s, s')
      || RestartWindows(s, s') || FinishBootstrap(config, s, s')
    ensures Inv(config, s')
  {
  }

  lemma FetchKeepsInv(config: Config, s: System, s': System)
    requires Inv(config, s) && Fetch(s, s')
    ensures Inv(config, s')
  {
    var selected, reconciled := s.phase.selected, s.phase.reconciled;
    var requested := Requested(s.phase.newUids, reconciled);
    var reply: seq<Envelope> :| FetchReply(s.server, requested, reply)
      && s' == s.(phase := Collected(s.phase.previous, selected, s.phase.highUid, reconciled, reply));
    forall i | 0 <= i < |reconciled| && !Fetched(reply, reconciled[i].0)
      ensures Dead(s.server, selected.uidValidity, reconciled[i].0)
    {
      assert reconciled[i].0 in UidsOf(reconciled);
      assert AssignedId(config, s.history, reconciled[i].1);
    }
    forall u | u in s.server.live && u in (set n | n in s.phase.newUids) ensures u in EnvelopeUids(reply) {
      assert Fetched(reply, u);
    }
    if selected.uidValidity == s.server.uidValidity {
      forall i | 0 <= i < |reply| ensures EnvelopeOf(s.history, selected.uidValidity, reply[i]) {
        assert reply[i].uid in s.server.live;
      }
    }
  }

  lemma ConfirmKeepsInv(config: Config, s: System, s': System)
    requires Inv(config, s) && Confirm(s, s')
    ensures Inv(config, s')
  {
  }

  // ----- The commit -----

  predicate InBatch(batch: seq<Message>, id: string)
  {
    exists i :: 0 <= i < |batch| && batch[i].id == id
  }

  predicate FromBatch(batch: seq<Message>, id: string, summary: Summary)
  {
    exists i :: 0 <= i < |batch| && batch[i].id == id && batch[i].summary == summary
  }

  lemma BatchSnoc(shorter: seq<Message>, last: Message, id: string, summary: Summary)
    ensures InBatch(shorter + [last], id) <==> InBatch(shorter, id) || id == last.id
    ensures FromBatch(shorter, id, summary) ==> FromBatch(shorter + [last], id, summary)
    ensures FromBatch(shorter + [last], last.id, last.summary)
  {
    var batch := shorter + [last];
    assert forall i :: 0 <= i < |shorter| ==> batch[i] == shorter[i];
    assert batch[|shorter|] == last;
  }

  lemma UpsertedRow(t: Tables, message: Message, done: Tables)
    requires UpsertChecked(t, message, false) == Ok(done)
    ensures done.messages.Keys == t.messages.Keys + {message.id}
    ensures forall id :: id in t.messages && id != message.id ==> done.messages[id] == t.messages[id]
    ensures done.messages[message.id].summary == message.summary
  {
  }

  predicate RowFollows(t: Tables, batch: seq<Message>, done: Tables, id: string)
  {
    && (id in done.messages <==> id in t.messages || InBatch(batch, id))
    && (id in done.messages && !InBatch(batch, id) ==> done.messages[id] == t.messages[id])
    && (id in done.messages && InBatch(batch, id) ==> FromBatch(batch, id, done.messages[id].summary))
  }

  /** After a summary batch every row is either a batch row or untouched. */
  lemma {:induction false} UpsertedRows(t: Tables, batch: seq<Message>, done: Tables, id: string)
    requires UpsertAll(t, batch, false) == Ok(done)
    ensures RowFollows(t, batch, done, id)
  {
    if batch != [] {
      var shorter, last := batch[..|batch| - 1], batch[|batch| - 1];
      assert batch == shorter + [last];
      var partial := UpsertAll(t, shorter, false).value;
      UpsertedRows(t, shorter, partial, id);
      UpsertedRow(partial, last, done);
      if id in done.messages {
        BatchSnoc(shorter, last, id, done.messages[id].summary);
      } else {
        BatchSnoc(shorter, last, id, last.summary);
      }
    }
  }

  /** The messages of a page are the summaries of its envelopes. */
  lemma PageMessage(config: Config, uidValidity: nat, envelopes: seq<Envelope>, id: string, summary: Summary)
    returns (i: nat)
    requires FromBatch(Summaries(config, uidValidity, envelopes), id, summary)
    ensures i < |envelopes| && Summarize(config, uidValidity, envelopes[i]).id == id
         && Summarize(config, uidValidity, envelopes[i]).summary == summary
  {
    var messages := Summaries(config, uidValidity, envelopes);
    var k :| 0 <= k < |messages| && messages[k].id == id && messages[k].summary == summary;
    i := k;
  }

  lemma SummaryIsRow(config: Config, history: History, server: Server, uidValidity: nat, envelope: Envelope, row: Row)
    requires ServerValid(server, history) && uidValidity <= U32_MAX && EnvelopeOf(history, uidValidity, envelope)
    requires row.summary == Summarize(config, uidValidity, envelope).summary
    ensures RowOf(config, history, uidValidity, Summarize(config, uidValidity, envelope).id, row)
  {
    KeyRoundTrip(config.account, config.mailbox, uidValidity, envelope.uid);
  }

  lemma {:induction false} MissingMember(reconciled: seq<(nat, string)>, envelopes: seq<Envelope>, id: string)
    returns (i: nat)
    requires id in MissingReconciled(reconciled, envelopes)
    ensures i < |reconciled| && reconciled[i].1 == id && !Fetched(envelopes, reconciled[i].0)
  {
    if !Fetched(envelopes, reconciled[0].0) && reconciled[0].1 == id {
      i := 0;
    } else {
      var k := MissingMember(reconciled[1..], envelopes, id);
      i := k + 1;
    }
  }

  /** Each id a page removes names a UID that is dead in the page's generation. */
  lemma RemovedIsDead(config: Config, s: System, id: string)
    requires Inv(config, s) && s.phase.Confirmed? && id in PageOf(config, s.phase).removed
    ensures KeyOf(config.account, id).Some?
    ensures var parsed := KeyOf(config.account, id).value;
      && parsed.mailbox == config.mailbox && parsed.uidValidity == s.phase.selected.uidValidity
      && Dead(s.server, parsed.uidValidity, parsed.uid)
      && !Fetched(s.phase.envelopes, parsed.uid)
  {
    var i := MissingMember(s.phase.reconciled, s.phase.envelopes, id);
  }

  /** What the rows of the mailbox are after a commit. */
  lemma CommittedRows(config: Config, s: System, done: Tables)
    requires Inv(config, s) && s.phase.Confirmed?
    requires ApplySyncPage(s.tables, config.account, config.mailbox, PageOf(config, s.phase)) == Ok(done)
    ensures RowsOf(config, s.history, done, s.phase.selected.uidValidity)
    ensures NoStrays(config, done) && ForeignKeys(done)
  {
    var page := PageOf(config, s.phase);
    var uidValidity := s.phase.selected.uidValidity;
    var base := if page.reset then WithoutCursor(s.tables, config.account, config.mailbox) else s.tables;
    var deletes := PageDeletes(s.tables, config.account, config.mailbox, page);
    var cleared := DeleteRows(base, deletes);
    var inserted := UpsertAll(cleared, page.messages, false).value;
    CacheHistory.UpsertAllKeepsKeys(cleared, page.messages, false);
    forall id | id in ScopeIds(done, config.account, config.mailbox)
      ensures RowOf(config, s.history, uidValidity, id, done.messages[id])
    {
      CommittedRow(config, s, cleared, inserted, id);
    }
    forall id | id in done.messages && NamesMailbox(config, id)
      ensures InScope(done.messages[id], config.account, config.mailbox)
    {
      UpsertedRows(cleared, page.messages, inserted, id);
      if InBatch(page.messages, id) {
        var i := PageMessage(config, uidValidity, s.phase.envelopes, id, inserted.messages[id].summary);
      }
    }
  }

  lemma CommittedRow(config: Config, s: System, cleared: Tables, inserted: Tables, id: string)
    requires Inv(config, s) && s.phase.Confirmed? && Listed(config, s.tables)
    requires var page := PageOf(config, s.phase);
      && cleared.messages == s.tables.messages - PageDeletes(s.tables, config.account, config.mailbox, page)
      && UpsertAll(cleared, page.messages, false) == Ok(inserted)
    requires id in ScopeIds(inserted, config.account, config.mailbox)
    ensures RowOf(config, s.history, s.phase.selected.uidValidity, id, inserted.messages[id])
  {
    var page := PageOf(config, s.phase);
    var uidValidity := s.phase.selected.uidValidity;
    UpsertedRows(cleared, page.messages, inserted, id);
    if InBatch(page.messages, id) {
      BatchRow(config, s, id, inserted.messages[id]);
    } else {
      assert id in ScopeIds(s.tables, config.account, config.mailbox);
      KeptRow(config, s, id);
    }
  }

  lemma BatchRow(config: Config, s: System, id: string, row: Row)
    requires Inv(config, s) && s.phase.Confirmed?
    requires FromBatch(PageOf(config, s.phase).messages, id, row.summary)
    ensures RowOf(config, s.history, s.phase.selected.uidValidity, id, row)
  {
    var i := PageMessage(config, s.phase.selected.uidValidity, s.phase.envelopes, id, row.summary);
    assert EnvelopeOf(s.history, s.phase.selected.uidValidity, s.phase.envelopes[i]);
    SummaryIsRow(config, s.history, s.server, s.phase.selected.uidValidity, s.phase.envelopes[i], row);
  }

  /** A page that does not reset the mailbox continues the generation of its rows. */
  lemma GenerationKept(config: Config, s: System, previous: Option<UidCursor>, selected: Selected, id: string)
    requires CacheInv(config, s) && CursorIs(config, s.tables, previous) && !PlanOf(previous, selected).reset
    requires id in ScopeIds(s.tables, config.account, config.mailbox)
    ensures RowOf(config, s.history, selected.uidValidity, id, s.tables.messages[id])
  {
    assert previous.Some? && previous.value.uidValidity == selected.uidValidity;
    assert RowsOf(config, s.history, s.tables, previous.value.uidValidity);
  }

  lemma PreviousIsStored(config: Config, s: System)
    requires PhaseInv(config, s) && s.phase.Confirmed? && Listed(config, s.tables)
    ensures CursorIs(config, s.tables, s.phase.previous)
  {
  }

  lemma KeptRow(config: Config, s: System, id: string)
    requires Inv(config, s) && s.phase.Confirmed? && Listed(config, s.tables)
    requires !PlanOf(s.phase.previous, s.phase.selected).reset
    requires id in ScopeIds(s.tables, config.account, config.mailbox)
    ensures RowOf(config, s.history, s.phase.selected.uidValidity, id, s.tables.messages[id])
  {
    PreviousIsStored(config, s);
    GenerationKept(config, s, s.phase.previous, s.phase.selected, id);
  }

  /** A UID that was cached before and is live survives the commit. */
  lemma CachedUidKept(config: Config, s: System, uid: nat)
    requires Inv(config, s) && s.phase.Confirmed? && Listed(config, s.tables)
    requires s.phase.selected.uidValidity == s.server.uidValidity && uid in s.server.live
    requires AfterUid(s.phase.previous, s.phase.selected).Some?
    requires s.bootstrapUid < uid <= AfterUid(s.phase.previous, s.phase.selected).value
    ensures IdOf(config, s.server.uidValidity, uid) in s.tables.messages
    ensures IdOf(config, s.server.uidValidity, uid) !in
      PageDeletes(s.tables, config.account, config.mailbox, PageOf(config, s.phase))
  {
    var id := IdOf(config, s.server.uidValidity, uid);
    KeyRoundTrip(config.account, config.mailbox, s.server.uidValidity, uid);
    assert id in s.tables.messages;
    if id in PageOf(config, s.phase).removed {
      RemovedIsDead(config, s, id);
    }
  }

  /** A UID that the page covers is among its messages. */
  lemma FetchedUidInBatch(config: Config, s: System, uid: nat)
    requires PhaseInv(config, s) && s.phase.Confirmed?
    requires s.phase.selected.uidValidity == s.server.uidValidity && uid in s.server.live
    requires AfterUid(s.phase.previous, s.phase.selected).Some?
    requires AfterUid(s.phase.previous, s.phase.selected).value < uid <= s.phase.highUid
    ensures InBatch(PageOf(config, s.phase).messages, IdOf(config, s.server.uidValidity, uid))
  {
    var page := PageOf(config, s.phase);
    assert uid in EnvelopeUids(s.phase.envelopes);
    var i :| 0 <= i < |s.phase.envelopes| && s.phase.envelopes[i].uid == uid;
    assert page.messages[i] == Summarize(config, s.server.uidValidity, s.phase.envelopes[i]);
  }

  /** A live UID covered by the new cursor has its row after the commit. */
  lemma CommittedUid(config: Config, s: System, cleared: Tables, inserted: Tables, uid: nat)
    requires Inv(config, s) && s.phase.Confirmed? && Listed(config, s.tables)
    requires var page := PageOf(config, s.phase);
      && cleared.messages == s.tables.messages - PageDeletes(s.tables, config.account, config.mailbox, page)
      && UpsertAll(cleared, page.messages, false) == Ok(inserted)
    requires s.phase.selected.uidValidity == s.server.uidValidity && uid in s.server.live
    requires AfterUid(s.phase.previous, s.phase.selected).Some? && s.bootstrapUid < uid <= s.phase.highUid
    ensures IdOf(config, s.server.uidValidity, uid) in inserted.messages
  {
    UpsertedRows(cleared, PageOf(config, s.phase).messages, inserted, IdOf(config, s.server.uidValidity, uid));
    if uid <= AfterUid(s.phase.previous, s.phase.selected).value {
      CachedUidKept(config, s, uid);
    } else {
      FetchedUidInBatch(config, s, uid);
    }
  }

  lemma CommitKeepsInv(config: Config, s: System, s': System)
    requires Inv(config, s) && Commit(config, s, s')
    ensures Inv(config, s')
  {
    var page := PageOf(config, s.phase);
    var outcome := ApplySyncPage(s.tables, config.account, config.mailbox, page);
    if outcome.Ok? {
      var done := outcome.value;
      CommittedRows(config, s, done);
      var cursor := UidCursor(s.phase.selected.uidValidity, s.phase.highUid);
      CursorRoundTrip(cursor);
      var base := if page.reset then WithoutCursor(s.tables, config.account, config.mailbox) else s.tables;
      var cleared := DeleteRows(base, PageDeletes(s.tables, config.account, config.mailbox, page));
      var inserted := UpsertAll(cleared, page.messages, false).value;
      if cursor.uidValidity == s'.server.uidValidity && AfterUid(s.phase.previous, s.phase.selected).Some? {
        forall u | u in s'.server.live && s'.bootstrapUid < u <= cursor.lastUid
          ensures IdOf(config, cursor.uidValidity, u) in s'.tables.messages
        {
          CommittedUid(config, s, cleared, inserted, u);
        }
      }
      assert HasCursor(config, done, cursor);
    }
  }

  lemma ClientKeepsInv(config: Config, s: System, s': System)
    requires Inv(config, s) && ClientStep(config, s, s')
    ensures Inv(config, s')
  {
    if Prepare(config, s, s') { PrepareKeepsInv(config, s, s'); }
    else if Select(s, s') { SelectKeepsInv(config, s, s'); }
    else if SearchSince(config, s, s') { SearchSinceKeepsInv(config, s, s'); }
    else if Fetch(s, s') { FetchKeepsInv(config, s, s'); }
    else if Confirm(s, s') { ConfirmKeepsInv(config, s, s'); }
    else if Commit(config, s, s') { CommitKeepsInv(config, s, s'); }
    else if !Abort(s, s') { BootstrapKeepsInv(config, s, s'); }
  }

  lemma StepKeepsInv(config: Config, s: System, s': System)
    requires Inv(config, s) && Next(config, s, s')
    ensures Inv(config, s')
  {
    if ClientStep(config, s, s') {
      ClientKeepsInv(config, s, s');
    } else if ServerMoves(s, s') {
      ServerKeepsInv(config, s, s');
    } else if OthersStep(config, s.tables, s'.tables) && s' == s.(tables := s'.tables) {
      OthersKeepInv(config, s, s');
    } else if RemoveStep(config, s.tables, s'.tables) && s' == s.(tables := s'.tables) {
      RemoveKeepsInv(config, s, s');
    } else {
      RelistKeepsInv(config, s, s');
    }
  }

  lemma {:induction false} RunKeepsInv(config: Config, run: seq<System>, k: nat)
    requires IsRun(config, run) && k < |run|
    ensures Inv(config, run[k])
  {
    if k > 0 {
      RunKeepsInv(config, run, k - 1);
      assert StepAt(config, run, k);
      StepKeepsInv(config, run[k - 1], run[k]);
    }
  }

  // ----- Theorems -----

  /** In every run, if the stored cursor is V:h and the server is still in generation V, then every live UID above
      the bootstrap and up to h is cached, under its own key and showing that very message. */
  lemma NoMailSkipped(config: Config, run: seq<System>, k: nat, cursor: UidCursor, uid: nat)
    requires IsRun(config, run) && k < |run|
    requires HasCursor(config, run[k].tables, cursor) && cursor.uidValidity == run[k].server.uidValidity
    requires uid in run[k].server.live && run[k].bootstrapUid < uid <= cursor.lastUid
    ensures var id := IdOf(config, cursor.uidValidity, uid);
      && id in run[k].tables.messages
      && InScope(run[k].tables.messages[id], config.account, config.mailbox)
      && Shows(run[k].tables.messages[id].summary, run[k].server.live[uid].headers)
  {
    var s := run[k];
    RunKeepsInv(config, run, k);
    var id := IdOf(config, cursor.uidValidity, uid);
    assert id in s.tables.messages;
    KeyRoundTrip(config.account, config.mailbox, cursor.uidValidity, uid);
    assert NamesMailbox(config, id);
    assert id in ScopeIds(s.tables, config.account, config.mailbox);
    assert RowOf(config, s.history, cursor.uidValidity, id, s.tables.messages[id]);
  }

  /** In every run each cached row of the mailbox carries the generation of the stored cursor and shows a message
      the server assigned in it; without a cursor there are no rows. */
  lemma GenerationsNeverMix(config: Config, run: seq<System>, k: nat, id: string)
    requires IsRun(config, run) && k < |run| && id in ScopeIds(run[k].tables, config.account, config.mailbox)
    ensures Key(config) in run[k].tables.cursors && ParseCursor(run[k].tables.cursors[Key(config)]).Some?
    ensures var cursor := ParseCursor(run[k].tables.cursors[Key(config)]).value;
      RowOf(config, run[k].history, cursor.uidValidity, id, run[k].tables.messages[id])
  {
    RunKeepsInv(config, run, k);
  }

  /** In every run an id that a confirmed page removes names a UID that no longer exists in the page's generation
      and never will again, and the page does not return it as a message. */
  lemma OnlyDeadMailRemoved(config: Config, run: seq<System>, k: nat, id: string)
    requires IsRun(config, run) && k < |run| && run[k].phase.Confirmed?
    requires id in PageOf(config, run[k].phase).removed
    ensures KeyOf(config.account, id).Some?
    ensures var parsed := KeyOf(config.account, id).value;
      parsed.uidValidity == run[k].phase.selected.uidValidity && Dead(run[k].server, parsed.uidValidity, parsed.uid)
    ensures !InBatch(PageOf(config, run[k].phase).messages, id)
  {
    RunKeepsInv(config, run, k);
    RemovedIsDead(config, run[k], id);
    var phase := run[k].phase;
    var messages := PageOf(config, phase).messages;
    forall i | 0 <= i < |messages| ensures messages[i].id != id {
      assert messages[i] == Summarize(config, phase.selected.uidValidity, phase.envelopes[i]);
      assert EnvelopeOf(run[k].history, phase.selected.uidValidity, phase.envelopes[i]);
      KeyRoundTrip(config.account, config.mailbox, phase.selected.uidValidity, phase.envelopes[i].uid);
      assert phase.envelopes[i].uid == phase.envelopes[i].uid && Fetched(phase.envelopes, phase.envelopes[i].uid);
    }
  }

  lemma PageMessagesAllowed(config: Config, s: System)
    requires Inv(config, s) && s.phase.Confirmed?
    ensures forall i :: 0 <= i < |s.phase.envelopes| ==>
      PageMessageAllowed(PageOf(config, s.phase).messages[i], config.account, config.mailbox)
  {
    var uidValidity := s.phase.selected.uidValidity;
    forall i | 0 <= i < |s.phase.envelopes|
      ensures PageMessageAllowed(PageOf(config, s.phase).messages[i], config.account, config.mailbox)
    {
      assert PageOf(config, s.phase).messages[i] == Summarize(config, uidValidity, s.phase.envelopes[i]);
      assert EnvelopeOf(s.history, uidValidity, s.phase.envelopes[i]);
      KeyRoundTrip(config.account, config.mailbox, uidValidity, s.phase.envelopes[i].uid);
    }
  }

  lemma PageRemovalAllowed(config: Config, run: seq<System>, k: nat, id: string)
    requires IsRun(config, run) && k < |run| && run[k].phase.Confirmed? && Listed(config, run[k].tables)
    requires id in PageOf(config, run[k].phase).removed
    ensures RemovalAllowed(id, config.account, PageOf(config, run[k].phase).messages)
    ensures RemovalInScope(run[k].tables, id, config.account, config.mailbox)
  {
    RunKeepsInv(config, run, k);
    OnlyDeadMailRemoved(config, run, k, id);
    RemovedIsDead(config, run[k], id);
    assert NamesMailbox(config, id);
    assert ProviderNativeId(config.account, id).Some?;
  }

  lemma PageCursorAllowed(config: Config, s: System)
    requires Inv(config, s) && s.phase.Confirmed?
    ensures CursorAllowed(PageOf(config, s.phase).cursor)
  {
    var cursor := UidCursor(s.phase.selected.uidValidity, s.phase.highUid);
    CursorTextShape(cursor);
    Utf8.EncodeAscii(cursor.ToText());
  }

  lemma PageRemovalsAllowed(config: Config, run: seq<System>, k: nat)
    requires IsRun(config, run) && k < |run| && run[k].phase.Confirmed? && Listed(config, run[k].tables)
    ensures var page := PageOf(config, run[k].phase);
      forall i :: 0 <= i < |page.removed| ==>
        && RemovalAllowed(page.removed[i], config.account, page.messages)
        && RemovalInScope(run[k].tables, page.removed[i], config.account, config.mailbox)
  {
    var page := PageOf(config, run[k].phase);
    forall i | 0 <= i < |page.removed|
      ensures RemovalAllowed(page.removed[i], config.account, page.messages)
           && RemovalInScope(run[k].tables, page.removed[i], config.account, config.mailbox)
    {
      assert page.removed[i] in page.removed;
      PageRemovalAllowed(config, run, k, page.removed[i]);
    }
  }

  /** A well-formed page whose removals are in scope commits. */
  lemma AllowedPageCommits(config: Config, t: Tables, page: SyncPage)
    requires Listed(config, t) && config.account in t.accounts && PageWellFormed(page, config.account, config.mailbox)
    requires forall i :: 0 <= i < |page.removed| ==>
      RemovalInScope(t, page.removed[i], config.account, config.mailbox)
    ensures ApplySyncPage(t, config.account, config.mailbox, page).Ok?
  {
    var base := if page.reset then WithoutCursor(t, config.account, config.mailbox) else t;
    SummariesInsert(DeleteRows(base, PageDeletes(t, config.account, config.mailbox, page)),
                    config.account, config.mailbox, page.messages);
  }

  /** A confirmed page of a listed mailbox always commits. */
  lemma ConfirmedPageCommits(config: Config, run: seq<System>, k: nat)
    requires IsRun(config, run) && k < |run| && run[k].phase.Confirmed? && Listed(config, run[k].tables)
    ensures ApplySyncPage(run[k].tables, config.account, config.mailbox, PageOf(config, run[k].phase)).Ok?
  {
    RunKeepsInv(config, run, k);
    PageMessagesAllowed(config, run[k]);
    PageCursorAllowed(config, run[k]);
    PageRemovalsAllowed(config, run, k);
    AllowedPageCommits(config, run[k].tables, PageOf(config, run[k].phase));
  }

  lemma {:induction false} SummariesInsert(t: Tables, account: string, mailbox: string, batch: seq<SummaryMessage>)
    requires account in t.accounts
    requires forall i :: 0 <= i < |batch| ==> PageMessageAllowed(batch[i], account, mailbox)
    ensures UpsertAll(t, batch, false).Ok? && UpsertAll(t, batch, false).value.accounts == t.accounts
  {
    if batch != [] {
      SummariesInsert(t, account, mailbox, batch[..|batch| - 1]);
      assert PageMessageAllowed(batch[|batch| - 1], account, mailbox);
    }
  }

  predicate Running(phase: Phase) { !phase.Idle? && !phase.Prepared? }

  lemma ValidityGrows(config: Config, s: System, s': System)
    requires Next(config, s, s')
    ensures s.server.uidValidity <= s'.server.uidValidity
    ensures Running(s.phase) && Running(s'.phase) ==> s'.phase.selected == s.phase.selected
  {
  }

  /** The closing SELECT implies that every command of the page ran in the selected generation. */
  lemma OneGenerationPerPage(config: Config, run: seq<System>, j: nat, k: nat)
    requires IsRun(config, run) && j < k < |run|
    requires forall m :: j <= m <= k ==> Running(run[m].phase)
    requires run[k - 1].phase.Collected? && run[k].phase.Confirmed?
    ensures Running(run[j].phase) && Running(run[k].phase) && run[j].phase.selected == run[k].phase.selected
    ensures run[j].server.uidValidity == run[k].phase.selected.uidValidity
  {
    RunKeepsInv(config, run, j);
    SelectedIsOlder(config, run[j]);
    SegmentGrows(config, run, j, k - 1);
    assert StepAt(config, run, k);
    ConfirmMatches(config, run[k - 1], run[k]);
  }

  lemma SelectedIsOlder(config: Config, s: System)
    requires PhaseInv(config, s) && Running(s.phase)
    ensures s.phase.selected.uidValidity <= s.server.uidValidity
  {
  }

  /** Only the closing SELECT confirms, in the generation that was selected. */
  lemma ConfirmMatches(config: Config, s: System, s': System)
    requires Next(config, s, s') && s.phase.Collected? && s'.phase.Confirmed?
    ensures s.server.uidValidity == s.phase.selected.uidValidity && s'.phase.selected == s.phase.selected
  {
  }

  lemma {:induction false} SegmentGrows(config: Config, run: seq<System>, j: nat, k: nat)
    requires IsRun(config, run) && j <= k < |run|
    requires forall m :: j <= m <= k ==> Running(run[m].phase)
    ensures Running(run[j].phase) && Running(run[k].phase) && run[j].phase.selected == run[k].phase.selected
    ensures run[j].server.uidValidity <= run[k].server.uidValidity
  {
    if j < k {
      SegmentGrows(config, run, j, k - 1);
      assert Running(run[k - 1].phase) && StepAt(config, run, k);
      ValidityGrows(config, run[k - 1], run[k]);
    }
  }
}
