/** On a server whose UIDs do not change, committed syncs bring the stored cursor to UIDNEXT - 1. */
module MailboxSyncConvergence {
  import opened Wrappers
  import opened Text
  import opened StableId
  import opened Storage
  import opened ImapUids
  import opened MailboxSync
  import opened MailboxSyncSafety

  /** An incremental search of the selected mailbox moves to `NextHigh`. */
  lemma SyncReachesNextHigh(config: Config, s: System, s': System)
    requires Inv(config, s) && SearchSince(config, s, s') && s'.phase.Searched?
    requires s.phase.selected.uidValidity == s.server.uidValidity
    ensures s'.phase.highUid == NextHigh(s.server.live.Keys, AfterUid(s.phase.previous, s.phase.selected).value,
                                         s.phase.selected.uidNext - 1, config.limit)
  {
    var plan := PlanOf(s.phase.previous, s.phase.selected);
    var after := plan.afterUid.value;
    match SearchRange(after, plan.throughUid)
    case Ok(Some((first, covered))) =>
      var found := SearchFound(config, s, s', first, covered);
      assert Between(found, after, covered) == Between(s.server.live.Keys, after, covered);
    case _ =>
  }

  // ----- A quiet stretch of a run -----

  /** The same generation, UIDNEXT and live UIDs; flags and keywords may change. */
  predicate SameUids(a: Server, b: Server)
  {
    a.uidValidity == b.uidValidity && a.uidNext == b.uidNext && a.live.Keys == b.live.Keys
  }

  /** From `a` to `b` no UID comes or goes and the mailbox stays listed; everything else may happen. */
  predicate Quiet(config: Config, run: seq<System>, a: nat, b: nat)
    requires a <= b < |run|
  {
    forall m :: a <= m <= b ==> SameUids(run[a].server, run[m].server) && Listed(config, run[m].tables)
  }

  function HighNext(config: Config, server: Server, highUid: nat): nat
    requires server.uidNext > 0
  {
    NextHigh(server.live.Keys, highUid, server.uidNext - 1, config.limit)
  }

  /** The sync in flight started from the stored cursor and moves to `high`. */
  predicate QuietPhase(phase: Phase, stored: UidCursor, selected: Selected, high: nat)
  {
    match phase
    case Idle => true
    case Prepared(previous, _) => previous == Some(stored)
    case Selecting(previous, _, seen) => previous == Some(stored) && seen == selected
    case Bootstrapping(_, _, _, _, _) => false
    case Searched(previous, seen, _, next, _) => previous == Some(stored) && seen == selected && next == high
    case Collected(previous, seen, next, _, _) => previous == Some(stored) && seen == selected && next == high
    case Confirmed(previous, seen, next, _, _) => previous == Some(stored) && seen == selected && next == high
  }

  predicate QuietInv(config: Config, s: System, highUid: nat)
    requires s.server.uidNext > 0
  {
    var stored := UidCursor(s.server.uidValidity, highUid);
    && HasCursor(config, s.tables, stored)
    && QuietPhase(s.phase, stored, Selected(s.server.uidValidity, s.server.uidNext),
                  HighNext(config, s.server, highUid))
  }

  /** How many steps from `a` to `b` satisfy `here`. */
  function Count<T>(run: seq<T>, a: nat, b: nat, here: (T, T) -> bool): nat
    requires a <= b < |run|
  {
    if a == b then 0 else Count(run, a, b - 1, here) + if here(run[b - 1], run[b]) then 1 else 0
  }

  predicate Keeps<T>(run: seq<T>, k: nat, n: nat, here: (T, T) -> bool, inv: (T, nat) -> bool)
    requires k + 1 < |run|
  {
    inv(run[k], n) ==> inv(run[k + 1], if here(run[k], run[k + 1]) then n + 1 else n)
  }

  /** An invariant that moves on precisely at the counted steps. */
  lemma {:induction false} CountedInvariant<T>(
      run: seq<T>, a: nat, b: nat, here: (T, T) -> bool, inv: (T, nat) -> bool)
    requires a <= b < |run| && inv(run[a], 0)
    requires forall k: nat, n: nat :: a <= k < b ==> Keeps(run, k, n, here, inv)
    ensures inv(run[b], Count(run, a, b, here))
  {
    if a < b {
      CountedInvariant(run, a, b - 1, here, inv);
      assert Keeps(run, b - 1, Count(run, a, b - 1, here), here, inv);
    }
  }

  predicate CommitsHere(config: Config, s: System, s': System) { Commit(config, s, s') }

  /** How many syncs commit between `a` and `b`. */
  function Commits(config: Config, run: seq<System>, a: nat, b: nat): nat
    requires a <= b < |run|
  {
    Count(run, a, b, (s, s') => CommitsHere(config, s, s'))
  }

  /** Where an incremental search of this state may end. */
  ghost predicate SearchEnds(config: Config, s: System, s': System, high: nat)
  {
    SearchSince(config, s, s') && s'.phase.Searched? ==> s'.phase.highUid == high
  }

  lemma QuietSearchEnds(config: Config, s: System, s': System, highUid: nat)
    requires Inv(config, s) && s.server.uidNext > 0 && QuietInv(config, s, highUid)
    ensures SearchEnds(config, s, s', HighNext(config, s.server, highUid))
  {
    if SearchSince(config, s, s') && s'.phase.Searched? {
      SyncReachesNextHigh(config, s, s');
    }
  }

  /** From here a sync with a cursor of this generation searches, or fails. */
  lemma QuietSearchStep(config: Config, s: System, s': System, stored: UidCursor, selected: Selected, high: nat)
    requires QuietPhase(s.phase, stored, selected, high) && s.phase.Selecting?
    requires selected == Selected(s.server.uidValidity, s.server.uidNext) && stored.uidValidity == s.server.uidValidity
    requires ClientStep(config, s, s') && SearchEnds(config, s, s', high)
    ensures QuietPhase(s'.phase, stored, selected, high) && s'.tables == s.tables
  {
  }

  lemma QuietClient(config: Config, s: System, s': System, stored: UidCursor, selected: Selected, high: nat)
    requires QuietPhase(s.phase, stored, selected, high) && HasCursor(config, s.tables, stored)
    requires selected == Selected(s.server.uidValidity, s.server.uidNext) && stored.uidValidity == s.server.uidValidity
    requires ClientStep(config, s, s') && !Commit(config, s, s') && SearchEnds(config, s, s', high)
    ensures QuietPhase(s'.phase, stored, selected, high) && s'.tables == s.tables
  {
    if s.phase.Selecting? {
      QuietSearchStep(config, s, s', stored, selected, high);
    }
  }

  lemma QuietOthers(config: Config, s: System, s': System, stored: UidCursor)
    requires HasCursor(config, s.tables, stored) && Listed(config, s.tables) && Listed(config, s'.tables)
    requires Next(config, s, s') && !ClientStep(config, s, s')
    ensures HasCursor(config, s'.tables, stored) && s'.phase == s.phase
  {
  }

  lemma QuietStep(config: Config, s: System, s': System, highUid: nat)
    requires s.server.uidNext > 0 && QuietInv(config, s, highUid) && Next(config, s, s') && !Commit(config, s, s')
    requires SearchEnds(config, s, s', HighNext(config, s.server, highUid))
    requires SameUids(s.server, s'.server) && Listed(config, s.tables) && Listed(config, s'.tables)
    ensures QuietInv(config, s', highUid)
  {
    var stored := UidCursor(s.server.uidValidity, highUid);
    if ClientStep(config, s, s') {
      QuietClient(config, s, s', stored,
        Selected(s.server.uidValidity, s.server.uidNext), HighNext(config, s.server, highUid));
    } else {
      QuietOthers(config, s, s', stored);
    }
  }

  /** A commit stores the cursor of its page. */
  lemma CommitStores(config: Config, s: System, s': System)
    requires Commit(config, s, s')
    requires ApplySyncPage(s.tables, config.account, config.mailbox, PageOf(config, s.phase)).Ok?
    requires UidCursor(s.phase.selected.uidValidity, s.phase.highUid).InRange()
    ensures HasCursor(config, s'.tables, UidCursor(s.phase.selected.uidValidity, s.phase.highUid))
    ensures s'.server == s.server && s'.phase.Idle?
  {
    CursorRoundTrip(UidCursor(s.phase.selected.uidValidity, s.phase.highUid));
  }

  /** A confirmed page of this state commits. */
  predicate CommitReady(config: Config, s: System)
  {
    s.phase.Confirmed? ==>
      && ApplySyncPage(s.tables, config.account, config.mailbox, PageOf(config, s.phase)).Ok?
      && UidCursor(s.phase.selected.uidValidity, s.phase.highUid).InRange()
  }

  lemma PageCursorInRange(config: Config, s: System)
    requires Inv(config, s) && s.phase.Confirmed?
    ensures UidCursor(s.phase.selected.uidValidity, s.phase.highUid).InRange()
  {
  }

  lemma RunIsReady(config: Config, run: seq<System>, k: nat)
    requires IsRun(config, run) && k < |run| && Listed(config, run[k].tables)
    ensures CommitReady(config, run[k])
  {
    if run[k].phase.Confirmed? {
      RunKeepsInv(config, run, k);
      PageCursorInRange(config, run[k]);
      ConfirmedPageCommits(config, run, k);
    }
  }

  lemma ConfirmedHigh(config: Config, s: System, highUid: nat)
    requires s.server.uidNext > 0 && QuietInv(config, s, highUid) && s.phase.Confirmed?
    ensures s.phase.selected.uidValidity == s.server.uidValidity
    ensures s.phase.highUid == HighNext(config, s.server, highUid)
  {
  }

  lemma IdleIsQuiet(config: Config, s: System, highUid: nat)
    requires s.server.uidNext > 0 && s.phase.Idle?
    requires HasCursor(config, s.tables, UidCursor(s.server.uidValidity, highUid))
    ensures QuietInv(config, s, highUid)
  {
  }

  lemma QuietCommit(config: Config, s: System, s': System, highUid: nat)
    requires s.server.uidNext > 0 && QuietInv(config, s, highUid) && Commit(config, s, s') && CommitReady(config, s)
    ensures s'.server == s.server
    ensures QuietInv(config, s', HighNext(config, s.server, highUid))
  {
    ConfirmedHigh(config, s, highUid);
    CommitStores(config, s, s');
    IdleIsQuiet(config, s', HighNext(config, s.server, highUid));
  }

  lemma ServersAreValid(config: Config, run: seq<System>, k: nat)
    requires IsRun(config, run) && k < |run|
    ensures 0 < run[k].server.uidNext <= U32_MAX
  {
    RunKeepsInv(config, run, k);
  }

  lemma QuietAny(config: Config, s: System, s': System, highUid: nat)
    requires s.server.uidNext > 0 && QuietInv(config, s, highUid) && Next(config, s, s')
    requires CommitReady(config, s) && SearchEnds(config, s, s', HighNext(config, s.server, highUid))
    requires SameUids(s.server, s'.server) && Listed(config, s.tables) && Listed(config, s'.tables)
    ensures QuietInv(config, s', if CommitsHere(config, s, s') then HighNext(config, s.server, highUid) else highUid)
  {
    if CommitsHere(config, s, s') {
      QuietCommit(config, s, s', highUid);
    } else {
      QuietStep(config, s, s', highUid);
    }
  }

  lemma RunSearchEnds(config: Config, run: seq<System>, k: nat, s': System, highUid: nat)
    requires IsRun(config, run) && k < |run| && run[k].server.uidNext > 0 && QuietInv(config, run[k], highUid)
    ensures SearchEnds(config, run[k], s', HighNext(config, run[k].server, highUid))
  {
    RunKeepsInv(config, run, k);
    QuietSearchEnds(config, run[k], s', highUid);
  }

  lemma QuietRunStep(config: Config, run: seq<System>, k: nat, highUid: nat)
    requires IsRun(config, run) && 0 < k < |run|
    requires run[k - 1].server.uidNext > 0 && QuietInv(config, run[k - 1], highUid)
    requires SameUids(run[k - 1].server, run[k].server)
    requires Listed(config, run[k - 1].tables) && Listed(config, run[k].tables)
    ensures run[k].server.uidNext > 0
    ensures QuietInv(config, run[k],
      if CommitsHere(config, run[k - 1], run[k]) then HighNext(config, run[k - 1].server, highUid) else highUid)
  {
    RunIsReady(config, run, k - 1);
    RunSearchEnds(config, run, k - 1, run[k], highUid);
    assert StepAt(config, run, k);
    QuietAny(config, run[k - 1], run[k], highUid);
  }

  /** `n` syncs after the server was as it is now, the stored cursor is where they lead from `highUid`. */
  predicate QuietAfter(config: Config, server: Server, highUid: nat, s: System, n: nat)
  {
    && server.uidNext > 0 && SameUids(server, s.server)
    && QuietInv(config, s, HighOf(config, server, highUid, n))
  }

  lemma SameNext(config: Config, a: Server, b: Server, highUid: nat)
    requires SameUids(a, b) && a.uidNext > 0
    ensures HighNext(config, b, highUid) == NextHigh(a.live.Keys, highUid, a.uidNext - 1, config.limit)
  {
  }

  /** The cursor after `n` syncs. */
  function HighOf(config: Config, server: Server, highUid: nat, n: nat): nat
    requires server.uidNext > 0
  {
    HighAfter(server.live.Keys, highUid, server.uidNext - 1, config.limit, n)
  }

  lemma HighOfSteps(config: Config, server: Server, s: System, highUid: nat, n: nat)
    requires SameUids(server, s.server) && server.uidNext > 0
    ensures HighOf(config, server, highUid, n + 1) == HighNext(config, s.server, HighOf(config, server, highUid, n))
  {
    HighAfterSteps(server.live.Keys, highUid, server.uidNext - 1, config.limit, n);
    SameNext(config, server, s.server, HighOf(config, server, highUid, n));
  }

  lemma QuietAfterStep(config: Config, server: Server, highUid: nat, run: seq<System>, k: nat, n: nat)
    requires IsRun(config, run) && k + 1 < |run| && QuietAfter(config, server, highUid, run[k], n)
    requires SameUids(server, run[k + 1].server) && Listed(config, run[k].tables) && Listed(config, run[k + 1].tables)
    ensures QuietAfter(config, server, highUid, run[k + 1],
                       if CommitsHere(config, run[k], run[k + 1]) then n + 1 else n)
  {
    HighOfSteps(config, server, run[k], highUid, n);
    QuietRunStep(config, run, k + 1, HighOf(config, server, highUid, n));
  }

  lemma StoredAfter(config: Config, server: Server, highUid: nat, s: System, n: nat)
    requires QuietAfter(config, server, highUid, s, n)
    ensures HasCursor(config, s.tables, UidCursor(server.uidValidity, HighOf(config, server, highUid, n)))
  {
  }

  // ----- Theorems -----

  lemma QuietRun(config: Config, run: seq<System>, a: nat, b: nat, highUid: nat)
    requires IsRun(config, run) && a <= b < |run| && Quiet(config, run, a, b)
    requires run[a].phase.Idle? && HasCursor(config, run[a].tables, UidCursor(run[a].server.uidValidity, highUid))
    ensures QuietAfter(config, run[a].server, highUid, run[b], Commits(config, run, a, b))
  {
    var inv := (s: System, n: nat) => QuietAfter(config, run[a].server, highUid, s, n);
    var here := (s: System, s': System) => CommitsHere(config, s, s');
    ServersAreValid(config, run, a);
    forall k: nat, n: nat | a <= k < b ensures Keeps(run, k, n, here, inv) {
      if inv(run[k], n) {
        QuietAfterStep(config, run[a].server, highUid, run, k, n);
      }
    }
    CountedInvariant(run, a, b, here, inv);
  }

  /** In every run, over a stretch in which no UID comes or goes, the stored cursor V:h moves once per committed sync,
      each time to `NextHigh`, whatever aborts, crashes, flag changes and other writers happen in between. */
  lemma CursorFollowsCommits(config: Config, run: seq<System>, a: nat, b: nat, highUid: nat)
    requires IsRun(config, run) && a <= b < |run| && Quiet(config, run, a, b)
    requires run[a].phase.Idle? && HasCursor(config, run[a].tables, UidCursor(run[a].server.uidValidity, highUid))
    ensures var server := run[a].server;
      && server.uidNext > 0
      && HasCursor(config, run[b].tables, UidCursor(server.uidValidity,
           HighOf(config, server, highUid, Commits(config, run, a, b))))
  {
    QuietRun(config, run, a, b, highUid);
    StoredAfter(config, run[a].server, highUid, run[b], Commits(config, run, a, b));
  }

  lemma EnoughSyncs(config: Config, server: Server, highUid: nat, n: nat)
    requires highUid < server.uidNext <= U32_MAX
    requires n >= SyncBound(server.live.Keys, highUid, server.uidNext - 1, config.limit)
    ensures HighOf(config, server, highUid, n) == server.uidNext - 1
  {
    var live, top := server.live.Keys, server.uidNext - 1;
    SyncConverges(live, highUid, top, config.limit);
    HighAfterTop(live, highUid, top, config.limit, n);
  }

  lemma StoredIsBelow(config: Config, run: seq<System>, k: nat, highUid: nat)
    requires IsRun(config, run) && k < |run|
    requires HasCursor(config, run[k].tables, UidCursor(run[k].server.uidValidity, highUid))
    ensures highUid < run[k].server.uidNext <= U32_MAX
  {
    RunKeepsInv(config, run, k);
  }

  lemma LiveIsBelow(config: Config, run: seq<System>, k: nat)
    requires IsRun(config, run) && k < |run|
    ensures forall u :: u in run[k].server.live ==> u < run[k].server.uidNext
  {
    RunKeepsInv(config, run, k);
  }

  /** Every live UID above the bootstrap is cached. */
  predicate CaughtUp(config: Config, s: System)
  {
    forall u :: u in s.server.live && s.bootstrapUid < u ==> IdOf(config, s.server.uidValidity, u) in s.tables.messages
  }

  /** A stored cursor at UIDNEXT - 1 leaves nothing above the bootstrap uncached. */
  lemma TopCursorCaughtUp(config: Config, run: seq<System>, k: nat, cursor: UidCursor)
    requires IsRun(config, run) && k < |run| && HasCursor(config, run[k].tables, cursor)
    requires cursor.uidValidity == run[k].server.uidValidity && cursor.lastUid + 1 == run[k].server.uidNext
    ensures CaughtUp(config, run[k])
  {
    LiveIsBelow(config, run, k);
    forall u | u in run[k].server.live && run[k].bootstrapUid < u
      ensures IdOf(config, run[k].server.uidValidity, u) in run[k].tables.messages
    {
      NoMailSkipped(config, run, k, cursor, u);
    }
  }

  lemma StoredAtTop(config: Config, server: Server, highUid: nat, s: System, n: nat)
    requires QuietAfter(config, server, highUid, s, n)
    requires highUid < server.uidNext <= U32_MAX
    requires n >= SyncBound(server.live.Keys, highUid, server.uidNext - 1, config.limit)
    ensures s.server.uidValidity == server.uidValidity && s.server.uidNext == server.uidNext
    ensures HasCursor(config, s.tables, UidCursor(server.uidValidity, server.uidNext - 1))
  {
    EnoughSyncs(config, server, highUid, n);
    StoredAfter(config, server, highUid, s, n);
  }

  /** After floor(L / limit) + ceil(gap / 4096) committed syncs the stored cursor is UIDNEXT - 1 and every live UID
      above the bootstrap is cached. */
  lemma QuietSyncsCatchUp(config: Config, run: seq<System>, a: nat, b: nat, highUid: nat)
    requires IsRun(config, run) && a <= b < |run| && Quiet(config, run, a, b)
    requires run[a].phase.Idle? && HasCursor(config, run[a].tables, UidCursor(run[a].server.uidValidity, highUid))
    requires run[a].server.uidNext > 0
    requires Commits(config, run, a, b) >=
      SyncBound(run[a].server.live.Keys, highUid, run[a].server.uidNext - 1, config.limit)
    ensures HasCursor(config, run[b].tables, UidCursor(run[a].server.uidValidity, run[a].server.uidNext - 1))
    ensures CaughtUp(config, run[b])
  {
    StoredIsBelow(config, run, a, highUid);
    QuietRun(config, run, a, b, highUid);
    StoredAtTop(config, run[a].server, highUid, run[b], Commits(config, run, a, b));
    TopCursorCaughtUp(config, run, b, UidCursor(run[a].server.uidValidity, run[a].server.uidNext - 1));
  }
}
