/** The incremental sync of one IMAP mailbox as a state machine: a server that changes between any two
    commands, the client's commands with their retries, and one atomic commit into the cache. */
module MailboxSync {
  import opened Wrappers
  import opened Text
  import opened StableId
  import opened Storage
  import opened ImapUids
  import Threads

  // ----- The server (section 2.3.1.1 of RFC 3501) -----

  /** The part of a message that never changes while its UID exists. */
  datatype Headers = Headers(
    subject: string, author: Option<Address>, date: Option<int>, hasAttachments: bool, providerData: ProviderData)

  datatype Mail = Mail(headers: Headers, seen: bool, flagged: bool, keywords: seq<string>)

  /** One mailbox: its generation, its next UID and the live messages. */
  datatype Server = Server(uidValidity: nat, uidNext: nat, live: map<nat, Mail>)

  /** What every generation ever assigned to each UID. */
  type History = map<(nat, nat), Headers>

  predicate ServerValid(server: Server, history: History)
  {
    && 0 < server.uidValidity <= U32_MAX
    && 0 < server.uidNext <= U32_MAX
    && (forall u :: u in server.live ==> 0 < u < server.uidNext)
    && (forall u :: u in server.live ==>
          (server.uidValidity, u) in history && history[(server.uidValidity, u)] == server.live[u].headers)
    && (forall key :: key in history ==>
          && 0 < key.1 <= U32_MAX
          && (key.0 < server.uidValidity || (key.0 == server.uidValidity && key.1 < server.uidNext)))
  }

  /** Arrivals (UID gaps allowed), expunges, flag changes and new generations. */
  predicate ServerStep(server: Server, history: History, server': Server, history': History)
  {
    && ServerValid(server', history')
    && history.Keys <= history'.Keys
    && (forall key :: key in history ==> history'[key] == history[key])
    && server.uidValidity <= server'.uidValidity
    && (server.uidValidity == server'.uidValidity ==>
          && server.uidNext <= server'.uidNext
          && (forall u :: u in server'.live && u < server.uidNext ==> u in server.live))
  }

  /** A UID that no longer exists, and by the UID rules never will again in its generation. */
  predicate Dead(server: Server, uidValidity: nat, uid: nat)
  {
    uidValidity < server.uidValidity
    || (uidValidity == server.uidValidity && uid < server.uidNext && uid !in server.live)
  }

  lemma DeadStaysDead(server: Server, history: History, server': Server, history': History, uidValidity: nat, uid: nat)
    requires ServerStep(server, history, server', history') && Dead(server, uidValidity, uid)
    ensures Dead(server', uidValidity, uid)
  {
  }

  datatype Envelope = Envelope(uid: nat, mail: Mail, timestamp: int)

  /** A SEARCH reply lists, in any order, the live UIDs of the range. */
  ghost predicate SearchReply(server: Server, first: nat, last: nat, reply: seq<nat>)
  {
    forall u :: u in reply <==> u in server.live && first <= u <= last
  }

  /** A FETCH reply describes exactly those requested UIDs that are live. */
  predicate FetchReply(server: Server, requested: set<nat>, reply: seq<Envelope>)
  {
    && (forall i :: 0 <= i < |reply| ==>
          && reply[i].uid in requested && reply[i].uid in server.live
          && reply[i].mail == server.live[reply[i].uid]
          && (reply[i].mail.headers.date.Some? ==> reply[i].timestamp == reply[i].mail.headers.date.value))
    && (forall u :: u in requested && u in server.live ==> Fetched(reply, u))
  }

  predicate Fetched(reply: seq<Envelope>, uid: nat)
  {
    exists i :: 0 <= i < |reply| && reply[i].uid == uid
  }

  // ----- The client -----

  datatype Config = Config(account: string, mailbox: string, limit: nat)

  /** Where a sync of the mailbox stands; every constructor is one await point. */
  datatype Phase =
    | Idle
    | Prepared(previous: Option<UidCursor>, reconcile: seq<string>)
    | Selecting(previous: Option<UidCursor>, reconcile: seq<string>, selected: Selected)
    | Bootstrapping(
        previous: Option<UidCursor>, selected: Selected, windows: seq<(nat, nat)>, next: nat, found: set<nat>)
    | Searched(
        previous: Option<UidCursor>, selected: Selected, newUids: seq<nat>, highUid: nat,
        reconciled: seq<(nat, string)>)
    | Collected(
        previous: Option<UidCursor>, selected: Selected, highUid: nat, reconciled: seq<(nat, string)>,
        envelopes: seq<Envelope>)
    | Confirmed(
        previous: Option<UidCursor>, selected: Selected, highUid: nat, reconciled: seq<(nat, string)>,
        envelopes: seq<Envelope>)

  datatype System = System(
    server: Server,
    history: History,
    tables: Tables,
    phase: Phase,
    bootstrapUid: nat)  // the UID through which the current generation was bootstrapped

  function PlanOf(previous: Option<UidCursor>, selected: Selected): Plan { UidSyncPlan(previous, selected) }

  /** The reconcile ids that name a UID of this mailbox and generation. */
  function Reconciled(config: Config, uidValidity: nat, ids: seq<string>): seq<(nat, string)>
  {
    if ids == [] then []
    else
      var rest := Reconciled(config, uidValidity, ids[1..]);
      match KeyOf(config.account, ids[0])
      case Some(parsed) =>
        if parsed.mailbox == config.mailbox && parsed.uidValidity == uidValidity
        then [(parsed.uid, ids[0])] + rest
        else rest
      case None => rest
  }

  function Summarize(config: Config, uidValidity: nat, envelope: Envelope): SummaryMessage
  {
    var native := StableImapId(config.mailbox, uidValidity, envelope.uid).ToText();
    var h := envelope.mail.headers;
    Message(
      NormalizedMessageId(config.account, native),
      Summary(config.account, Some(config.mailbox),
        Some(match Threads.ThreadName(config.account, h.providerData)
             case Some(name) => name
             case None => Threads.SingletonName(config.account, native)),
        h.subject, h.author, envelope.timestamp, envelope.mail.seen, envelope.mail.flagged, "", h.hasAttachments,
        envelope.mail.keywords, h.providerData),
      EMPTY_BODY)
  }

  /** `into_iter().map(imap_message_summary)` */
  function Summaries(config: Config, uidValidity: nat, envelopes: seq<Envelope>): seq<SummaryMessage>
  {
    seq(|envelopes|, i requires 0 <= i < |envelopes| => Summarize(config, uidValidity, envelopes[i]))
  }

  /** Reconciled ids whose UID the FETCH did not return. */
  function MissingReconciled(reconciled: seq<(nat, string)>, envelopes: seq<Envelope>): seq<string>
  {
    if reconciled == [] then []
    else
      var rest := MissingReconciled(reconciled[1..], envelopes);
      if Fetched(envelopes, reconciled[0].0) then rest else [reconciled[0].1] + rest
  }

  function UidsOf(reconciled: seq<(nat, string)>): set<nat>
  {
    set i | 0 <= i < |reconciled| :: reconciled[i].0
  }

  function Requested(newUids: seq<nat>, reconciled: seq<(nat, string)>): set<nat>
  {
    (set u | u in newUids) + UidsOf(reconciled)
  }

  /** The page a sync hands to the cache. */
  function PageOf(config: Config, phase: Phase): SyncPage
    requires phase.Confirmed?
  {
    SyncPage(
      Summaries(config, phase.selected.uidValidity, phase.envelopes),
      MissingReconciled(phase.reconciled, phase.envelopes),
      Some(UidCursor(phase.selected.uidValidity, phase.highUid).ToText()),
      PlanOf(phase.previous, phase.selected).reset)
  }

  predicate CursorIs(config: Config, tables: Tables, previous: Option<UidCursor>)
  {
    var key := (config.account, config.mailbox);
    match previous
    case None => key !in tables.cursors
    case Some(cursor) => key in tables.cursors && ParseCursor(tables.cursors[key]) == Some(cursor)
  }

  /** The client's next command against the server as it is now. */
  ghost predicate ClientStep(config: Config, s: System, s': System)
  {
    && s'.server == s.server && s'.history == s.history
    && (
      || Prepare(config, s, s') || Select(s, s') || SearchSince(config, s, s') || StartBootstrap(config, s, s')
      || SearchWindow(s, s') || RestartWindows(s, s') || FinishBootstrap(config, s, s') || Fetch(s, s')
      || Confirm(s, s') || Commit(config, s, s') || Abort(s, s'))
  }

  /** Reads the stored cursor and up to two pages of cached ids to reconcile. */
  predicate Prepare(config: Config, s: System, s': System)
  {
    && s.phase.Idle? && s'.phase.Prepared?
    && CursorIs(config, s.tables, s'.phase.previous)
    && (forall i :: 0 <= i < |s'.phase.reconcile| ==>
      s'.phase.reconcile[i] in ScopeIds(s.tables, config.account, config.mailbox))
    && s' == s.(phase := s'.phase)
  }

  predicate Select(s: System, s': System)
  {
    && s.phase.Prepared?
    && s' == s.(phase :=
         Selecting(s.phase.previous, s.phase.reconcile, Selected(s.server.uidValidity, s.server.uidNext)))
  }

  /** One SEARCH of the incremental range, or none when the cursor has caught up. */
  ghost predicate SearchSince(config: Config, s: System, s': System)
  {
    && s.phase.Selecting?
    && var plan := PlanOf(s.phase.previous, s.phase.selected);
    && plan.afterUid.Some?
    && var reconciled := Reconciled(config, s.phase.selected.uidValidity, s.phase.reconcile);
      match SearchRange(plan.afterUid.value, plan.throughUid)
      case Err(_) => s' == s.(phase := Idle)
      case Ok(None) =>
        s' == s.(phase := Searched(s.phase.previous, s.phase.selected, [], plan.afterUid.value, reconciled))
      case Ok(Some((first, covered))) =>
        exists reply: seq<nat> :: SearchReply(s.server, first, covered, reply) &&
          var page := IncrementalPage((set u | u in reply), plan.afterUid.value, covered, config.limit);
          s' == s.(phase := Searched(s.phase.previous, s.phase.selected, page.uids, page.highUid, reconciled))
  }

  predicate StartBootstrap(config: Config, s: System, s': System)
  {
    && s.phase.Selecting? && s'.phase.Bootstrapping?
    && PlanOf(s.phase.previous, s.phase.selected).afterUid.None?
    && WindowsOf(s'.phase.windows, PlanOf(s.phase.previous, s.phase.selected).throughUid)
    && s' == s.(phase := Bootstrapping(s.phase.previous, s.phase.selected, s'.phase.windows, 0, {}))
  }

  ghost predicate SearchWindow(s: System, s': System)
  {
    && s.phase.Bootstrapping? && s.phase.next < |s.phase.windows|
    && exists reply: seq<nat> ::
      && SearchReply(s.server, s.phase.windows[s.phase.next].0, s.phase.windows[s.phase.next].1, reply)
      && s' == s.(phase := s.phase.(next := s.phase.next + 1, found := s.phase.found + set u | u in reply))
  }

  /** The session was lost: the whole closure starts over. */
  predicate RestartWindows(s: System, s': System)
  {
    s.phase.Bootstrapping? && s' == s.(phase := s.phase.(next := 0, found := {}))
  }

  predicate FinishBootstrap(config: Config, s: System, s': System)
  {
    && s.phase.Bootstrapping?
    && (s.phase.next == |s.phase.windows| || |s.phase.found| >= AtLeastOne(config.limit))
    && s' == s.(phase := Searched(s.phase.previous, s.phase.selected, Newest(s.phase.found, AtLeastOne(config.limit)),
                                  PlanOf(s.phase.previous, s.phase.selected).throughUid, []))
  }

  ghost predicate Fetch(s: System, s': System)
  {
    && s.phase.Searched?
    && exists reply: seq<Envelope> ::
      && FetchReply(s.server, Requested(s.phase.newUids, s.phase.reconciled), reply)
      && s' == s.(phase := Collected(s.phase.previous, s.phase.selected, s.phase.highUid, s.phase.reconciled, reply))
  }

  /** The closing SELECT: a changed generation discards the page. */
  predicate Confirm(s: System, s': System)
  {
    && s.phase.Collected?
    && s' == s.(phase := if s.server.uidValidity != s.phase.selected.uidValidity then Idle
                         else Confirmed(s.phase.previous, s.phase.selected, s.phase.highUid, s.phase.reconciled,
                                        s.phase.envelopes))
  }

  predicate Commit(config: Config, s: System, s': System)
  {
    && s.phase.Confirmed?
    && match ApplySyncPage(s.tables, config.account, config.mailbox, PageOf(config, s.phase))
       case Err(_) => s' == s.(phase := Idle)
       case Ok(done) =>
         s' == s.(phase := Idle, tables := done,
                  bootstrapUid := if PlanOf(s.phase.previous, s.phase.selected).afterUid.None?
                                  then PlanOf(s.phase.previous, s.phase.selected).throughUid else s.bootstrapUid)
  }

  /** Any failure, timeout, cancellation or crash before the commit. */
  predicate Abort(s: System, s': System) { s' == s.(phase := Idle) }

  // ----- Everything else that touches the cache -----

  /** Rows may change read and star state, labels and body; the mailbox keeps its rows and its cursor. */
  predicate SameIdentity(a: Summary, b: Summary)
  {
    b == a.(read := b.read, starred := b.starred, labels := b.labels)
  }

  predicate OthersStep(config: Config, t: Tables, t': Tables)
  {
    var key := (config.account, config.mailbox);
    && ForeignKeys(t') && NoStrays(config, t')
    && (key in t'.mailboxes <==> key in t.mailboxes)
    && (key in t'.cursors <==> key in t.cursors) && (key in t.cursors ==> t'.cursors[key] == t.cursors[key])
    && ScopeIds(t', config.account, config.mailbox) == ScopeIds(t, config.account, config.mailbox)
    && forall id :: id in ScopeIds(t, config.account, config.mailbox) ==>
         SameIdentity(t.messages[id].summary, t'.messages[id].summary)
  }

  /** The account is removed: rows, cursor and mailbox go together, even under a sync in flight. */
  predicate RemoveStep(config: Config, t: Tables, t': Tables)
  {
    var key := (config.account, config.mailbox);
    && ForeignKeys(t') && NoStrays(config, t') && key !in t'.mailboxes
    && ScopeIds(t', config.account, config.mailbox) == {}
  }

  /** The mailbox is listed again; the account's sync marker keeps this away from a sync in flight. */
  predicate RelistStep(config: Config, s: System, s': System)
  {
    var key := (config.account, config.mailbox);
    && s.phase.Idle? && key !in s.tables.mailboxes && config.account in s.tables.accounts
    && s' == s.(tables := s.tables.(mailboxes := s.tables.mailboxes + {key}))
  }

  /** Ids of this mailbox are not used by rows elsewhere. */
  predicate NoStrays(config: Config, t: Tables)
  {
    forall id :: id in t.messages && NamesMailbox(config, id) ==>
      InScope(t.messages[id], config.account, config.mailbox)
  }

  predicate NamesMailbox(config: Config, id: string)
  {
    KeyOf(config.account, id).Some? && KeyOf(config.account, id).value.mailbox == config.mailbox
  }

  predicate Init(config: Config, s: System)
  {
    && ServerValid(s.server, s.history) && ForeignKeys(s.tables) && NoStrays(config, s.tables)
    && ScopeIds(s.tables, config.account, config.mailbox) == {}
    && (config.account, config.mailbox) !in s.tables.cursors
    && s.phase.Idle?
  }

  ghost predicate Next(config: Config, s: System, s': System)
  {
    || ClientStep(config, s, s')
    || (ServerStep(s.server, s.history, s'.server, s'.history) && s' == s.(server := s'.server, history := s'.history))
    || (OthersStep(config, s.tables, s'.tables) && s' == s.(tables := s'.tables))
    || (RemoveStep(config, s.tables, s'.tables) && s' == s.(tables := s'.tables))
    || RelistStep(config, s, s')
  }

  ghost predicate StepAt(config: Config, run: seq<System>, i: int)
    requires 0 < i < |run|
  {
    Next(config, run[i - 1], run[i])
  }

  /** A run from an empty mailbox cache. */
  ghost predicate IsRun(config: Config, run: seq<System>)
  {
    && run != [] && Init(config, run[0])
    && forall i :: 0 < i < |run| ==> StepAt(config, run, i)
  }
}
