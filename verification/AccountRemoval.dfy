/** Account removal racing every task that works for an account: the account_mutations lock, the tombstones in
    removed_accounts, the provider map, and the tables with and without a foreign key to accounts. */
module AccountRemoval {
  import opened Wrappers

  type Id = string

  datatype Row = Row(account: Id, key: nat)

  /** A provider instance; two instances for the same account are different Arcs. */
  type Instance = nat

  /** A task of the daemon, named after what it does next. The steps between Waiting and the last one hold the
      account_mutations lock. */
  datatype Actor =
    // accounts.remove
    | RemoveWaiting(id: Id)
    | RemoveMarking(id: Id)
    | RemoveTaking(id: Id)
    | RemovePurging(id: Id, provider: Option<Instance>)
    | RemoveRevoking(id: Id, provider: Option<Instance>)
    | RemoveDeleting(id: Id, provider: Option<Instance>)
    | RemoveUnmarking(id: Id, provider: Option<Instance>)
    | RemoveRestoring(id: Id, provider: Option<Instance>)
    // accounts.add
    | AddWaiting(id: Id)
    | AddUnmarking(id: Id)
    | AddStoring(id: Id)
    | AddPublishing(id: Id)
    // foreground and background synchronization, between two critical sections
    | SyncIdle(id: Id)
    | MailWaiting(id: Id)
    | MailChecking(id: Id)
    | MailWriting(id: Id)
    | AgendaWaiting(id: Id)
    | AgendaChecking(id: Id)
    | AgendaWriting(id: Id)
    // live agenda mutations and agenda recovery
    | MutationWaiting(id: Id)
    | MutationLoading(id: Id)
    | MutationCommitting(id: Id)
    // mail.get, accounts.reauth and attachment.download
    | BodyFetching(id: Id)
    | ReauthAuthorizing(id: Id)
    | ReauthSaving(id: Id)
    | DownloadWaiting(id: Id, instance: Instance)
    | DownloadChecking(id: Id, instance: Instance)
    | DownloadWriting(id: Id)
    // file jobs whose task was dropped: they go on by themselves, without the lock
    | DroppedWriting(id: Id)
    | DroppedPurging(id: Id)

  datatype State = State(
    accounts: set<Id>,
    mail: set<Row>,               // mailboxes, messages, cursors: foreign key to accounts
    agenda: set<Row>,             // tasks and events: no foreign key
    files: set<Row>,              // cached attachments
    removed: set<Id>,             // the tombstones
    providers: map<Id, Instance>,
    instances: nat,               // provider instances made so far
    lock: Option<nat>,
    actors: map<nat, Actor>,
    gone: set<Id>,                // history: removal committed, account not stored again
    reopened: set<Id>)            // history: of these, the ids whose tombstone a later call took away

  const INITIAL := State({}, {}, {}, {}, {}, map[], 0, None, map[], {}, {})

  datatype Move =
    | Start(i: nat, actor: Actor)
    | Advance(i: nat, ok: bool, keys: set<nat>)
    | Cancel(i: nat)
    | Restart(restored: set<Id>)

  predicate Waiting(a: Actor)
  {
    a.RemoveWaiting? || a.AddWaiting? || a.MailWaiting? || a.AgendaWaiting? || a.MutationWaiting? || a.DownloadWaiting?
  }

  predicate IsDropped(a: Actor) { a.DroppedWriting? || a.DroppedPurging? }

  /** Steps taken without the lock. */
  predicate Unlocked(a: Actor)
  {
    Waiting(a) || IsDropped(a) || a.SyncIdle? || a.BodyFetching? || a.ReauthAuthorizing? || a.ReauthSaving?
  }

  predicate RemovesOrAdds(a: Actor)
  {
    a.RemoveWaiting? || a.RemoveMarking? || a.RemoveTaking? || a.RemovePurging? || a.RemoveRevoking?
    || a.RemoveDeleting? || a.RemoveUnmarking? || a.RemoveRestoring?
    || a.AddWaiting? || a.AddUnmarking? || a.AddStoring? || a.AddPublishing?
  }

  /** A task starts from an active provider or from a stored account. */
  predicate Startable(s: State, a: Actor)
  {
    match a
    case RemoveWaiting(_) => true
    case AddWaiting(_) => true
    case SyncIdle(id) => id in s.providers
    case AgendaWaiting(id) => id in s.accounts
    case MutationWaiting(_) => true
    case BodyFetching(id) => id in s.providers
    case ReauthAuthorizing(id) => id in s.accounts
    case DownloadWaiting(id, instance) => id in s.providers && s.providers[id] == instance
    case _ => false
  }

  predicate Enabled(s: State, move: Move)
  {
    match move
    case Start(i, a) => i !in s.actors && Startable(s, a)
    case Advance(i, _, _) => i in s.actors && (Waiting(s.actors[i]) ==> s.lock.None?)
    case Cancel(i) => i in s.actors && !IsDropped(s.actors[i])
    case Restart(restored) => restored <= s.accounts
  }

  function Rows(id: Id, keys: set<nat>): set<Row> { set k | k in keys :: Row(id, k) }

  function OthersOf(rows: set<Row>, id: Id): set<Row> { set r | r in rows && r.account != id }

  function Become(s: State, i: nat, a: Actor): State { s.(actors := s.actors[i := a]) }

  function Locked(s: State, i: nat, a: Actor): State { s.(actors := s.actors[i := a], lock := Some(i)) }

  function Released(s: State, i: nat): Option<nat> { if s.lock == Some(i) then None else s.lock }

  function Done(s: State, i: nat): State { s.(actors := s.actors - {i}, lock := Released(s, i)) }

  /** Back to the unlocked part of a synchronization. */
  function Rest(s: State, i: nat, id: Id): State { s.(actors := s.actors[i := SyncIdle(id)], lock := Released(s, i)) }

  function Insert(s: State, id: Id): State
  {
    s.(providers := s.providers[id := s.instances], instances := s.instances + 1)
  }

  /** remove_account: the operations, tasks and events by name, everything else by cascade. */
  function Delete(s: State, id: Id): State
  {
    s.(accounts := s.accounts - {id}, mail := OthersOf(s.mail, id), agenda := OthersOf(s.agenda, id),
       gone := s.gone + {id}, reopened := s.reopened - {id})
  }

  /** Taking a tombstone away; for a removed account this is what reopens it. */
  function Unmark(s: State, id: Id): State
  {
    s.(removed := s.removed - {id}, reopened := if id in s.gone then s.reopened + {id} else s.reopened)
  }

  /** An account row is in the table again. */
  function Stored(s: State, id: Id): State
  {
    s.(accounts := s.accounts + {id}, gone := s.gone - {id}, reopened := s.reopened - {id})
  }

  function RemoveStep(s: State, i: nat, a: Actor, ok: bool, keys: set<nat>): State
  {
    match a
    case RemoveWaiting(id) => Locked(s, i, RemoveMarking(id))
    case RemoveMarking(id) => Become(s.(removed := s.removed + {id}), i, RemoveTaking(id))
    case RemoveTaking(id) =>
      Become(s.(providers := s.providers - {id}), i,
             RemovePurging(id, if id in s.providers then Some(s.providers[id]) else None))
    case RemovePurging(id, provider) =>
      // a purge that fails may have deleted some files; a file that comes while the directory is read is taken to come
      // after it, because besides the purge only dropped jobs are at work then
      if ok then Become(s.(files := {}), i, RemoveRevoking(id, provider))
      else Become(s.(files := set f | f in s.files && f.key in keys), i, RemoveUnmarking(id, provider))
    case RemoveRevoking(id, provider) =>
      Become(s, i, if ok then RemoveDeleting(id, provider) else RemoveUnmarking(id, provider))
    case RemoveDeleting(id, provider) =>
      if ok && id in s.accounts then Done(Delete(s, id), i) else Become(s, i, RemoveUnmarking(id, provider))
    case RemoveUnmarking(id, provider) => Become(Unmark(s, id), i, RemoveRestoring(id, provider))
    case RemoveRestoring(id, provider) =>
      Done(if provider.Some? then s.(providers := s.providers[id := provider.value]) else s, i)
    case _ => s
  }

  function AddStep(s: State, i: nat, a: Actor, ok: bool): State
  {
    match a
    case AddWaiting(id) => Locked(s, i, AddUnmarking(id))
    case AddUnmarking(id) => if ok then Become(Unmark(s, id), i, AddStoring(id)) else Done(s, i)
    case AddStoring(id) =>
      if ok
      then Become(Stored(s, id), i, AddPublishing(id))
      else Done(s, i)
    case AddPublishing(id) => Done(Insert(s, id), i)
    case _ => s
  }

  function SyncStep(s: State, i: nat, a: Actor, ok: bool, keys: set<nat>): State
  {
    match a
    case SyncIdle(id) =>
      if keys == {} then Done(s, i) else Become(s, i, if ok then MailWaiting(id) else AgendaWaiting(id))
    case MailWaiting(id) => Locked(s, i, MailChecking(id))
    case MailChecking(id) => if id in s.removed then Rest(s, i, id) else Become(s, i, MailWriting(id))
    case MailWriting(id) =>
      // the foreign key refuses rows of an account that is not stored
      if ok && id in s.accounts then Rest(s.(mail := OthersOf(s.mail, id) + Rows(id, keys)), i, id) else Rest(s, i, id)
    case AgendaWaiting(id) => Locked(s, i, AgendaChecking(id))
    case AgendaChecking(id) => if id in s.removed || !ok then Rest(s, i, id) else Become(s, i, AgendaWriting(id))
    case AgendaWriting(id) =>
      if ok then Rest(s.(agenda := OthersOf(s.agenda, id) + Rows(id, keys)), i, id) else Rest(s, i, id)
    case _ => s
  }

  function OtherStep(s: State, i: nat, a: Actor, ok: bool, keys: set<nat>): State
  {
    match a
    case MutationWaiting(id) => Locked(s, i, MutationLoading(id))
    case MutationLoading(id) => if ok && id in s.accounts then Become(s, i, MutationCommitting(id)) else Done(s, i)
    case MutationCommitting(id) => Done(if ok then s.(agenda := s.agenda + Rows(id, keys)) else s, i)
    case BodyFetching(id) => Done(if ok && id in s.accounts then s.(mail := s.mail + Rows(id, keys)) else s, i)
    case ReauthAuthorizing(id) => if ok then Become(Insert(s, id), i, ReauthSaving(id)) else Done(s, i)
    case ReauthSaving(id) => Done(s, i)
    case DownloadWaiting(id, instance) => Locked(s, i, DownloadChecking(id, instance))
    case DownloadChecking(id, instance) =>
      if id in s.removed || id !in s.providers || s.providers[id] != instance then Done(s, i)
      else Become(s, i, DownloadWriting(id))
    case DownloadWriting(id) => Done(if ok then s.(files := s.files + Rows(id, keys)) else s, i)
    case DroppedWriting(id) => Done(if ok then s.(files := s.files + Rows(id, keys)) else s, i)
    case DroppedPurging(id) =>
      // any files, one after the other
      var t := s.(files := set f | f in s.files && f.key in keys);
      if ok then Done(t, i) else t
    case _ => s
  }

  function Act(s: State, i: nat, a: Actor, ok: bool, keys: set<nat>): State
  {
    if a.AddWaiting? || a.AddUnmarking? || a.AddStoring? || a.AddPublishing? then AddStep(s, i, a, ok)
    else if RemovesOrAdds(a) then RemoveStep(s, i, a, ok, keys)
    else if a.SyncIdle? || a.MailWaiting? || a.MailChecking? || a.MailWriting?
      || a.AgendaWaiting? || a.AgendaChecking? || a.AgendaWriting? then SyncStep(s, i, a, ok, keys)
    else OtherStep(s, i, a, ok, keys)
  }

  /** Dropping a task frees the lock at once. A job already sent to the database thread still runs there, but before any
      later one, so that the task is dropped right after that step; a file job has no such order and goes on. */
  function Drop(s: State, i: nat, a: Actor): State
  {
    match a
    case DownloadWriting(id) => Become(s, i, DroppedWriting(id)).(lock := Released(s, i))
    case RemovePurging(id, _) => Become(s, i, DroppedPurging(id)).(lock := Released(s, i))
    case _ => Done(s, i)
  }

  function Step(s: State, move: Move): State
    requires Enabled(s, move)
  {
    match move
    case Start(i, a) => Become(s, i, a)
    case Advance(i, ok, keys) => Act(s, i, s.actors[i], ok, keys)
    case Cancel(i) => Drop(s, i, s.actors[i])
    case Restart(restored) =>
      s.(removed := {}, providers := map id | id in restored :: s.instances, instances := s.instances + 1,
         lock := None, actors := map[])
  }

  // ----- The invariant -----

  /** Removed, not stored again, and the tombstone never taken away since. */
  predicate Final(s: State, id: Id) { id in s.gone && id !in s.reopened }

  predicate LockHeldOnce(s: State)
  {
    && (s.lock.Some? ==> s.lock.value in s.actors)
    && forall i :: i in s.actors ==> (Unlocked(s.actors[i]) <==> s.lock != Some(i))
  }

  predicate ForeignKey(s: State)
  {
    && (forall r :: r in s.mail ==> r.account in s.accounts)
    && (forall id :: id in s.gone ==> id !in s.accounts)
    && s.reopened <= s.gone
  }

  predicate NoAgenda(s: State, id: Id) { forall r :: r in s.agenda ==> r.account != id }

  predicate NoFiles(s: State, id: Id) { forall r :: r in s.files ==> r.account != id }

  predicate Empty(s: State, id: Id) { NoAgenda(s, id) && NoFiles(s, id) }

  /** Nobody holds a provider of the account: what a restart leaves. */
  predicate Unreferenced(s: State, id: Id)
  {
    && id !in s.providers
    && forall i :: i in s.actors && s.actors[i].id == id ==>
      || s.actors[i].MutationWaiting? || s.actors[i].MutationLoading? || s.actors[i].DroppedPurging?
      || (RemovesOrAdds(s.actors[i]) && !HoldsProvider(s.actors[i]))
  }

  predicate HoldsProvider(a: Actor)
  {
    (a.RemovePurging? || a.RemoveRevoking? || a.RemoveDeleting? || a.RemoveUnmarking? || a.RemoveRestoring?)
    && a.provider.Some?
  }

  predicate Sealed(s: State, id: Id) { id in s.removed || Unreferenced(s, id) }

  /** What a task that holds the lock has already established. */
  predicate Justified(s: State, a: Actor)
  {
    match a
    case RemoveTaking(id) => id in s.removed
    case RemovePurging(id, _) => id in s.removed
    case RemoveRevoking(id, _) => id in s.removed
    case RemoveDeleting(id, _) => id in s.removed
    case AddStoring(id) => !Final(s, id)
    case AddPublishing(id) => !Final(s, id)
    case RemoveRestoring(id, _) => !Final(s, id)
    case AgendaWriting(id) => !Final(s, id)
    case MutationCommitting(id) => id in s.accounts
    case DownloadWriting(id) => !Final(s, id)
    case _ => true
  }

  predicate AllJustified(s: State) { forall i :: i in s.actors ==> Justified(s, s.actors[i]) }

  ghost predicate FinalHolds(s: State) { forall id :: Final(s, id) ==> NoAgenda(s, id) && Sealed(s, id) }

  ghost predicate Inv(s: State) { LockHeldOnce(s) && ForeignKey(s) && AllJustified(s) && FinalHolds(s) }

  /** A step changes only its own task and its own hold of the lock. */
  predicate Local(s: State, i: nat, t: State)
  {
    && t.actors - {i} == s.actors - {i}
    && t.lock == (if i in t.actors && !Unlocked(t.actors[i]) then Some(i) else Released(s, i))
  }

  predicate Ready(s: State, i: nat, a: Actor)
  {
    i in s.actors && s.actors[i] == a && (Unlocked(a) <==> s.lock != Some(i)) && (Waiting(a) ==> s.lock.None?)
  }

  lemma RemoveKeepsOthers(s: State, i: nat, a: Actor, ok: bool, keys: set<nat>)
    ensures RemoveStep(s, i, a, ok, keys).actors - {i} == s.actors - {i}
  {
  }

  lemma RemoveIsLocal(s: State, i: nat, a: Actor, ok: bool, keys: set<nat>)
    requires Ready(s, i, a)
    ensures Local(s, i, RemoveStep(s, i, a, ok, keys))
  {
    RemoveKeepsOthers(s, i, a, ok, keys);
  }

  lemma AddIsLocal(s: State, i: nat, a: Actor, ok: bool)
    requires Ready(s, i, a)
    ensures Local(s, i, AddStep(s, i, a, ok))
  {
  }

  lemma SyncIsLocal(s: State, i: nat, a: Actor, ok: bool, keys: set<nat>)
    requires Ready(s, i, a)
    ensures Local(s, i, SyncStep(s, i, a, ok, keys))
  {
  }

  lemma OtherIsLocal(s: State, i: nat, a: Actor, ok: bool, keys: set<nat>)
    requires Ready(s, i, a)
    ensures Local(s, i, OtherStep(s, i, a, ok, keys))
  {
  }

  lemma ActIsLocal(s: State, i: nat, ok: bool, keys: set<nat>)
    requires LockHeldOnce(s) && Enabled(s, Advance(i, ok, keys))
    ensures Local(s, i, Act(s, i, s.actors[i], ok, keys))
  {
    var a := s.actors[i];
    RemoveIsLocal(s, i, a, ok, keys);
    AddIsLocal(s, i, a, ok);
    SyncIsLocal(s, i, a, ok, keys);
    OtherIsLocal(s, i, a, ok, keys);
  }

  lemma StepKeepsLock(s: State, move: Move)
    requires LockHeldOnce(s) && Enabled(s, move)
    ensures LockHeldOnce(Step(s, move))
  {
    if move.Advance? {
      var t := Step(s, move);
      ActIsLocal(s, move.i, move.ok, move.keys);
      LocalKeepsLock(s, move.i, t);
    }
  }

  lemma LocalKeepsLock(s: State, i: nat, t: State)
    requires LockHeldOnce(s) && Local(s, i, t) && i in s.actors
    requires i in t.actors && !Unlocked(t.actors[i]) && Unlocked(s.actors[i]) ==> s.lock.None?
    ensures LockHeldOnce(t)
  {
    forall j | j in t.actors && j != i ensures j in s.actors && t.actors[j] == s.actors[j] {
      SameElsewhere(s, i, t, j);
    }
    forall j | j in s.actors && j != i ensures j in t.actors {
      assert j in s.actors - {i};
      assert j in t.actors - {i};
    }
  }

  lemma RemoveKeepsForeignKey(s: State, i: nat, a: Actor, ok: bool, keys: set<nat>)
    requires ForeignKey(s)
    ensures ForeignKey(RemoveStep(s, i, a, ok, keys))
  {
  }

  lemma AddKeepsForeignKey(s: State, i: nat, a: Actor, ok: bool)
    requires ForeignKey(s)
    ensures ForeignKey(AddStep(s, i, a, ok))
  {
  }

  lemma SyncKeepsForeignKey(s: State, i: nat, a: Actor, ok: bool, keys: set<nat>)
    requires ForeignKey(s)
    ensures ForeignKey(SyncStep(s, i, a, ok, keys)) && ForeignKey(OtherStep(s, i, a, ok, keys))
  {
  }

  lemma StepKeepsForeignKey(s: State, move: Move)
    requires ForeignKey(s) && Enabled(s, move)
    ensures ForeignKey(Step(s, move))
  {
    if move.Advance? {
      RemoveKeepsForeignKey(s, move.i, s.actors[move.i], move.ok, move.keys);
      AddKeepsForeignKey(s, move.i, s.actors[move.i], move.ok);
      SyncKeepsForeignKey(s, move.i, s.actors[move.i], move.ok, move.keys);
    }
  }

  /** Tasks that do not hold the lock leave alone what the lock protects. */
  lemma UnlockedFrame(s: State, i: nat, a: Actor, ok: bool, keys: set<nat>)
    requires Unlocked(a)
    ensures var t := Act(s, i, a, ok, keys);
      t.accounts == s.accounts && t.agenda == s.agenda && t.removed == s.removed
      && t.gone == s.gone && t.reopened == s.reopened
  {
  }

  lemma ActJustified(s: State, i: nat, a: Actor, ok: bool, keys: set<nat>)
    requires Ready(s, i, a) && Justified(s, a) && ForeignKey(s)
    requires Final(s, a.id) ==> Sealed(s, a.id)
    ensures var t := Act(s, i, a, ok, keys); i in t.actors ==> Justified(t, t.actors[i])
  {
    if a.AgendaChecking? || a.DownloadChecking? {
      assert Final(s, a.id) ==> !Unreferenced(s, a.id);
    }
  }

  lemma OthersJustified(s: State, t: State, a: Actor)
    requires Justified(s, a) && t.accounts == s.accounts && t.removed == s.removed
    requires t.gone == s.gone && t.reopened == s.reopened
    ensures Justified(t, a)
  {
  }

  /** While one task holds the lock, steps of the others leave what it relies on alone. */
  lemma HolderStaysJustified(s: State, i: nat, ok: bool, keys: set<nat>, j: nat)
    requires LockHeldOnce(s) && AllJustified(s) && i in s.actors && j in s.actors && i != j && !Unlocked(s.actors[j])
    ensures Justified(Act(s, i, s.actors[i], ok, keys), s.actors[j])
  {
    assert Unlocked(s.actors[i]);
    UnlockedFrame(s, i, s.actors[i], ok, keys);
    OthersJustified(s, Act(s, i, s.actors[i], ok, keys), s.actors[j]);
  }

  lemma OtherTaskJustified(s: State, i: nat, ok: bool, keys: set<nat>, j: nat)
    requires LockHeldOnce(s) && AllJustified(s) && i in s.actors && j in s.actors && i != j
    ensures Justified(Act(s, i, s.actors[i], ok, keys), s.actors[j])
  {
    if !Unlocked(s.actors[j]) {
      HolderStaysJustified(s, i, ok, keys, j);
    }
  }

  lemma SameElsewhere(s: State, i: nat, t: State, j: nat)
    requires Local(s, i, t) && j in t.actors && j != i
    ensures j in s.actors && t.actors[j] == s.actors[j]
  {
    assert j in t.actors - {i};
  }

  lemma AdvanceKeepsJustified(s: State, i: nat, ok: bool, keys: set<nat>)
    requires LockHeldOnce(s) && ForeignKey(s) && AllJustified(s) && Enabled(s, Advance(i, ok, keys))
    requires Final(s, s.actors[i].id) ==> Sealed(s, s.actors[i].id)
    ensures AllJustified(Act(s, i, s.actors[i], ok, keys))
  {
    var t := Act(s, i, s.actors[i], ok, keys);
    ActIsLocal(s, i, ok, keys);
    forall j | j in t.actors ensures Justified(t, t.actors[j]) {
      if j == i {
        ActJustified(s, i, s.actors[i], ok, keys);
      } else {
        SameElsewhere(s, i, t, j);
        OtherTaskJustified(s, i, ok, keys, j);
      }
    }
  }

  lemma StepKeepsJustified(s: State, move: Move)
    requires Inv(s) && Enabled(s, move)
    ensures AllJustified(Step(s, move))
  {
    if move.Advance? {
      AdvanceKeepsJustified(s, move.i, move.ok, move.keys);
    } else {
      QuietMoveKeepsJustified(s, move);
    }
  }

  /** Starts begin unlocked, and cancellations and restarts only take tasks away. */
  lemma QuietMoveKeepsJustified(s: State, move: Move)
    requires AllJustified(s) && Enabled(s, move) && !move.Advance?
    ensures AllJustified(Step(s, move))
  {
    var t := Step(s, move);
    forall j | j in t.actors ensures Justified(t, t.actors[j]) {
      if j in s.actors && t.actors[j] == s.actors[j] {
        OthersJustified(s, t, s.actors[j]);
      }
    }
  }

  lemma RemoveKeepsFinal(s: State, i: nat, a: Actor, ok: bool, keys: set<nat>, id: Id)
    requires Ready(s, i, a) && Justified(s, a) && ForeignKey(s)
    requires Final(s, id) ==> NoAgenda(s, id) && Sealed(s, id)
    ensures var t := RemoveStep(s, i, a, ok, keys); Final(t, id) ==> NoAgenda(t, id) && Sealed(t, id)
  {
  }

  lemma AddKeepsFinal(s: State, i: nat, a: Actor, ok: bool, id: Id)
    requires Ready(s, i, a) && Justified(s, a) && ForeignKey(s)
    requires Final(s, id) ==> NoAgenda(s, id) && Sealed(s, id)
    ensures var t := AddStep(s, i, a, ok); Final(t, id) ==> NoAgenda(t, id) && Sealed(t, id)
  {
  }

  lemma SyncKeepsFinal(s: State, i: nat, a: Actor, ok: bool, keys: set<nat>, id: Id)
    requires Ready(s, i, a) && Justified(s, a) && ForeignKey(s)
    requires Final(s, id) ==> NoAgenda(s, id) && Sealed(s, id)
    ensures var t := SyncStep(s, i, a, ok, keys); Final(t, id) ==> NoAgenda(t, id) && Sealed(t, id)
  {
  }

  lemma OtherKeepsFinal(s: State, i: nat, a: Actor, ok: bool, keys: set<nat>, id: Id)
    requires Ready(s, i, a) && Justified(s, a) && ForeignKey(s)
    requires Final(s, id) ==> NoAgenda(s, id) && Sealed(s, id)
    ensures var t := OtherStep(s, i, a, ok, keys); Final(t, id) ==> NoAgenda(t, id) && Sealed(t, id)
  {
  }

  lemma ActKeepsFinal(s: State, i: nat, a: Actor, ok: bool, keys: set<nat>, id: Id)
    requires Ready(s, i, a) && Justified(s, a) && ForeignKey(s)
    requires Final(s, id) ==> NoAgenda(s, id) && Sealed(s, id)
    ensures var t := Act(s, i, a, ok, keys); Final(t, id) ==> NoAgenda(t, id) && Sealed(t, id)
  {
    RemoveKeepsFinal(s, i, a, ok, keys, id);
    AddKeepsFinal(s, i, a, ok, id);
    SyncKeepsFinal(s, i, a, ok, keys, id);
    OtherKeepsFinal(s, i, a, ok, keys, id);
  }

  lemma StepKeepsFinal(s: State, move: Move, id: Id)
    requires Inv(s) && Enabled(s, move)
    ensures var t := Step(s, move); Final(t, id) ==> NoAgenda(t, id) && Sealed(t, id)
  {
    assert Final(s, id) ==> NoAgenda(s, id) && Sealed(s, id);
    match move
    case Advance(i, ok, keys) =>
      ActKeepsFinal(s, i, s.actors[i], ok, keys, id);
    case Start(i, a) =>
    case Cancel(i) =>
      assert Unreferenced(s, id) ==> Unreferenced(Step(s, move), id);
    case Restart(restored) =>
      assert Final(s, id) ==> Unreferenced(Step(s, move), id);
  }

  lemma StepKeepsInv(s: State, move: Move)
    requires Inv(s) && Enabled(s, move)
    ensures Inv(Step(s, move))
  {
    StepKeepsLock(s, move);
    StepKeepsForeignKey(s, move);
    StepKeepsJustified(s, move);
    forall id | Final(Step(s, move), id) ensures NoAgenda(Step(s, move), id) && Sealed(Step(s, move), id) {
      StepKeepsFinal(s, move, id);
    }
  }

  // ----- Runs -----

  predicate StepAt(run: seq<State>, moves: seq<Move>, i: nat)
    requires |run| == |moves| + 1 && i < |moves|
  {
    Enabled(run[i], moves[i]) && run[i + 1] == Step(run[i], moves[i])
  }

  predicate IsRun(run: seq<State>, moves: seq<Move>)
  {
    |run| == |moves| + 1 && run[0] == INITIAL && forall i :: 0 <= i < |moves| ==> StepAt(run, moves, i)
  }

  lemma {:induction false} InvHolds(run: seq<State>, moves: seq<Move>, k: nat)
    requires IsRun(run, moves) && k < |run|
    ensures Inv(run[k])
  {
    if k > 0 {
      InvHolds(run, moves, k - 1);
      assert StepAt(run, moves, k - 1);
      StepKeepsInv(run[k - 1], moves[k - 1]);
    }
  }

  // ----- Files of a removed account -----

  /** A file job of a dropped download of the account is still at work. */
  predicate Outstanding(s: State, id: Id) { exists i :: i in s.actors && s.actors[i] == DroppedWriting(id) }

  predicate Purged(a: Actor, id: Id) { (a.RemoveRevoking? || a.RemoveDeleting?) && a.id == id }

  /** A removal has purged the files and goes on, or the account is removed for good. */
  predicate Shut(s: State, id: Id) { Final(s, id) || exists i :: i in s.actors && Purged(s.actors[i], id) }

  /** The file job of a dropped download puts files in place. */
  predicate Lands(s: State, move: Move, id: Id)
  {
    move.Advance? && move.i in s.actors && s.actors[move.i] == DroppedWriting(id) && move.ok && move.keys != {}
  }

  lemma NobodyDownloads(s: State, i: nat, id: Id)
    requires Inv(s) && Shut(s, id) && i in s.actors
    ensures s.actors[i] != DownloadWriting(id)
  {
  }

  predicate WritesAgenda(a: Actor, ok: bool, keys: set<nat>, id: Id)
  {
    ok && keys != {} && a == AgendaWriting(id)
  }

  predicate WritesFiles(a: Actor, ok: bool, keys: set<nat>, id: Id)
  {
    ok && keys != {} && (a == DownloadWriting(id) || a == DroppedWriting(id))
  }

  predicate Writes(a: Actor, ok: bool, keys: set<nat>, id: Id)
  {
    WritesAgenda(a, ok, keys, id) || WritesFiles(a, ok, keys, id)
  }

  lemma RemoveAndAddBringNothing(s: State, i: nat, a: Actor, ok: bool, keys: set<nat>, id: Id)
    ensures NoFiles(s, id) ==> NoFiles(RemoveStep(s, i, a, ok, keys), id) && NoFiles(AddStep(s, i, a, ok), id)
    ensures NoAgenda(s, id) ==> NoAgenda(RemoveStep(s, i, a, ok, keys), id) && NoAgenda(AddStep(s, i, a, ok), id)
  {
  }

  lemma SyncBrings(s: State, i: nat, a: Actor, ok: bool, keys: set<nat>, id: Id)
    ensures NoFiles(s, id) ==> NoFiles(SyncStep(s, i, a, ok, keys), id)
    ensures NoAgenda(s, id) ==> (!NoAgenda(SyncStep(s, i, a, ok, keys), id) <==> WritesAgenda(a, ok, keys, id))
  {
    if keys != {} {
      var key :| key in keys;
      assert Row(id, key) in Rows(id, keys);
    }
  }

  lemma OtherBrings(s: State, i: nat, a: Actor, ok: bool, keys: set<nat>, id: Id)
    ensures NoFiles(s, id) ==> (!NoFiles(OtherStep(s, i, a, ok, keys), id) <==> WritesFiles(a, ok, keys, id))
  {
    if keys != {} {
      var key :| key in keys;
      assert Row(id, key) in Rows(id, keys);
    }
  }

  lemma OtherBringsNoAgenda(s: State, i: nat, a: Actor, ok: bool, keys: set<nat>, id: Id)
    requires NoAgenda(s, id) && Justified(s, a) && id !in s.accounts
    ensures NoAgenda(OtherStep(s, i, a, ok, keys), id)
  {
  }

  lemma ActFiles(s: State, i: nat, a: Actor, ok: bool, keys: set<nat>, id: Id)
    requires NoFiles(s, id)
    ensures !NoFiles(Act(s, i, a, ok, keys), id) <==> WritesFiles(a, ok, keys, id)
  {
    RemoveAndAddBringNothing(s, i, a, ok, keys, id);
    SyncBrings(s, i, a, ok, keys, id);
    OtherBrings(s, i, a, ok, keys, id);
  }

  /** While an account is shut, only such a job brings a file. */
  lemma FilesLand(s: State, move: Move, id: Id)
    requires Inv(s) && Enabled(s, move) && Shut(s, id) && NoFiles(s, id)
    ensures !NoFiles(Step(s, move), id) <==> Lands(s, move, id)
  {
    if move.Advance? {
      NobodyDownloads(s, move.i, id);
      ActFiles(s, move.i, s.actors[move.i], move.ok, move.keys, id);
    }
  }

  lemma RemoveAndAddDropNothing(s: State, i: nat, a: Actor, ok: bool, keys: set<nat>)
    requires !IsDropped(a) && i in s.actors && s.actors[i] == a
    ensures var t := RemoveStep(s, i, a, ok, keys); i in t.actors ==> !IsDropped(t.actors[i])
    ensures var t := AddStep(s, i, a, ok); i in t.actors ==> !IsDropped(t.actors[i])
  {
  }

  lemma OthersDropNothing(s: State, i: nat, a: Actor, ok: bool, keys: set<nat>)
    requires !IsDropped(a) && i in s.actors && s.actors[i] == a
    ensures var t := SyncStep(s, i, a, ok, keys); i in t.actors ==> !IsDropped(t.actors[i])
    ensures var t := OtherStep(s, i, a, ok, keys); i in t.actors ==> !IsDropped(t.actors[i])
  {
  }

  lemma DroppedStayDropped(s: State, i: nat, id: Id, ok: bool, keys: set<nat>, t: State)
    requires i in s.actors && IsDropped(s.actors[i]) && t == Act(s, i, s.actors[i], ok, keys)
    requires i in t.actors && t.actors[i] == DroppedWriting(id)
    ensures s.actors[i] == DroppedWriting(id)
  {
  }

  lemma AdvanceDropsNothing(s: State, i: nat, ok: bool, keys: set<nat>, id: Id)
    requires LockHeldOnce(s) && Enabled(s, Advance(i, ok, keys)) && !Outstanding(s, id)
    ensures !Outstanding(Act(s, i, s.actors[i], ok, keys), id)
  {
    var t := Act(s, i, s.actors[i], ok, keys);
    ActIsLocal(s, i, ok, keys);
    if j :| j in t.actors && t.actors[j] == DroppedWriting(id) {
      if j != i {
        SameElsewhere(s, i, t, j);
      } else if IsDropped(s.actors[i]) {
        DroppedStayDropped(s, i, id, ok, keys, t);
      } else {
        RemoveAndAddDropNothing(s, i, s.actors[i], ok, keys);
        OthersDropNothing(s, i, s.actors[i], ok, keys);
      }
    }
  }

  /** No further one comes up. */
  lemma NoneComesUp(s: State, move: Move, id: Id)
    requires Inv(s) && Enabled(s, move) && Shut(s, id) && !Outstanding(s, id)
    ensures !Outstanding(Step(s, move), id)
  {
    match move
    case Advance(i, ok, keys) =>
      AdvanceDropsNothing(s, i, ok, keys, id);
    case Cancel(i) =>
      NobodyDownloads(s, i, id);
    case _ =>
  }

  /** A task is at work after the purge of a removal only when it was before or has just purged all files, and the other
      way into a lasting removal is to end it there. */
  predicate PurgesFirst(s: State, i: nat, a: Actor, t: State, id: Id)
  {
    || t.files == {}
    || ((Final(t, id) ==> Final(s, id) || Purged(a, id))
        && (i in t.actors && Purged(t.actors[i], id) ==> Purged(a, id)))
  }

  lemma RemovePurgesFirst(s: State, i: nat, a: Actor, ok: bool, keys: set<nat>, id: Id)
    requires i in s.actors && s.actors[i] == a
    ensures PurgesFirst(s, i, a, RemoveStep(s, i, a, ok, keys), id)
  {
  }

  lemma AddPurgesFirst(s: State, i: nat, a: Actor, ok: bool, id: Id)
    requires i in s.actors && s.actors[i] == a
    ensures PurgesFirst(s, i, a, AddStep(s, i, a, ok), id)
  {
  }

  lemma OthersPurgeFirst(s: State, i: nat, a: Actor, ok: bool, keys: set<nat>, id: Id)
    requires i in s.actors && s.actors[i] == a
    ensures PurgesFirst(s, i, a, SyncStep(s, i, a, ok, keys), id)
    ensures PurgesFirst(s, i, a, OtherStep(s, i, a, ok, keys), id)
  {
  }

  lemma AdvanceShuts(s: State, i: nat, ok: bool, keys: set<nat>, id: Id)
    requires LockHeldOnce(s) && Enabled(s, Advance(i, ok, keys)) && !Shut(s, id)
    requires Shut(Act(s, i, s.actors[i], ok, keys), id)
    ensures Act(s, i, s.actors[i], ok, keys).files == {}
  {
    var t := Act(s, i, s.actors[i], ok, keys);
    RemovePurgesFirst(s, i, s.actors[i], ok, keys, id);
    AddPurgesFirst(s, i, s.actors[i], ok, id);
    OthersPurgeFirst(s, i, s.actors[i], ok, keys, id);
    ActIsLocal(s, i, ok, keys);
    assert !Purged(s.actors[i], id);
    if t.files != {} {
      var j :| j in t.actors && Purged(t.actors[j], id);
      if j != i {
        SameElsewhere(s, i, t, j);
      }
    }
  }

  lemma ShutIsPurged(s: State, move: Move, id: Id)
    requires Inv(s) && Enabled(s, move) && !Shut(s, id) && Shut(Step(s, move), id)
    ensures NoFiles(Step(s, move), id)
  {
    if move.Advance? {
      AdvanceShuts(s, move.i, move.ok, move.keys, id);
    } else {
      QuietMoveShutsNothing(s, move, id);
    }
  }

  lemma QuietMoveShutsNothing(s: State, move: Move, id: Id)
    requires Enabled(s, move) && !move.Advance? && Shut(Step(s, move), id)
    ensures Shut(s, id)
  {
    var t := Step(s, move);
    if !Final(s, id) {
      var j :| j in t.actors && Purged(t.actors[j], id);
      assert j in s.actors && Purged(s.actors[j], id);
    }
  }

  /** At its n-th step a run puts files of the account in place, and from there to the k-th the account is shut. */
  predicate Landed(run: seq<State>, moves: seq<Move>, n: nat, k: nat, id: Id)
    requires k < |run| == |moves| + 1
  {
    n < k && Lands(run[n], moves[n], id) && forall m :: n <= m <= k ==> ShutAt(run, m, id)
  }

  predicate ShutAt(run: seq<State>, m: nat, id: Id)
    requires m < |run|
  {
    Shut(run[m], id)
  }

  lemma FilesComeFrom(s: State, move: Move, id: Id)
    requires Inv(s) && Enabled(s, move) && Shut(Step(s, move), id) && !NoFiles(Step(s, move), id)
    ensures Shut(s, id) && (!NoFiles(s, id) || Lands(s, move, id))
  {
    if !Shut(s, id) {
      ShutIsPurged(s, move, id);
    } else if NoFiles(s, id) {
      FilesLand(s, move, id);
    }
  }

  lemma FilesComeAt(run: seq<State>, moves: seq<Move>, k: nat, id: Id)
    requires IsRun(run, moves) && k < |run| && ShutAt(run, k, id) && !NoFiles(run[k], id)
    ensures k > 0 && ShutAt(run, k - 1, id) && (!NoFiles(run[k - 1], id) || Lands(run[k - 1], moves[k - 1], id))
  {
    if k > 0 {
      InvHolds(run, moves, k - 1);
      assert StepAt(run, moves, k - 1);
      FilesComeFrom(run[k - 1], moves[k - 1], id);
    }
  }

  lemma LandedLater(run: seq<State>, moves: seq<Move>, n: nat, k: nat, id: Id)
    requires k + 1 < |run| == |moves| + 1 && Landed(run, moves, n, k, id) && ShutAt(run, k + 1, id)
    ensures Landed(run, moves, n, k + 1, id)
  {
  }

  lemma {:induction false} FilesNeedLanding(run: seq<State>, moves: seq<Move>, k: nat, id: Id)
    requires IsRun(run, moves) && k < |run| && ShutAt(run, k, id) && !NoFiles(run[k], id)
    ensures exists n :: Landed(run, moves, n, k, id)
  {
    FilesComeAt(run, moves, k, id);
    if NoFiles(run[k - 1], id) {
      assert Landed(run, moves, k - 1, k, id);
    } else {
      FilesNeedLanding(run, moves, k - 1, id);
      var n :| Landed(run, moves, n, k - 1, id);
      LandedLater(run, moves, n, k - 1, id);
    }
  }

  /** Every run, with every interleaving, cancellation and restart: a removed account has no mailbox, message or cursor
      until it is stored again, and no task and event until its tombstone is taken away. Until then it has a file only
      when the file job of a dropped download has put one in place after the removal had purged them. */
  lemma RemovalIsFinal(run: seq<State>, moves: seq<Move>, k: nat, id: Id)
    requires IsRun(run, moves) && k < |run|
    ensures id in run[k].gone ==> id !in run[k].accounts && forall r :: r in run[k].mail ==> r.account != id
    ensures Final(run[k], id) ==> NoAgenda(run[k], id)
    ensures Final(run[k], id) && !NoFiles(run[k], id) ==> exists n :: Landed(run, moves, n, k, id)
  {
    InvHolds(run, moves, k);
    if Final(run[k], id) && !NoFiles(run[k], id) {
      assert ShutAt(run, k, id);
      FilesNeedLanding(run, moves, k, id);
    }
  }

  lemma {:induction false} FirstFile(run: seq<State>, moves: seq<Move>, j: nat, m: nat, id: Id)
    requires IsRun(run, moves) && j <= m < |run| && NoFiles(run[j], id) && !NoFiles(run[m], id)
    requires forall n :: j <= n <= m ==> ShutAt(run, n, id)
    ensures exists n :: j <= n < m && Lands(run[n], moves[n], id)
  {
    assert ShutAt(run, m, id);
    FilesComeAt(run, moves, m, id);
    if !NoFiles(run[m - 1], id) {
      FirstFile(run, moves, j, m - 1, id);
    }
  }

  /** Over any stretch of a run in which the account is shut and which begins without files of it: files come if and
      only if the file job of a dropped download of the account puts them in place. */
  lemma FilesReturnExactly(run: seq<State>, moves: seq<Move>, j: nat, k: nat, id: Id)
    requires IsRun(run, moves) && j <= k < |run| && NoFiles(run[j], id)
    requires forall m :: j <= m <= k ==> ShutAt(run, m, id)
    ensures (exists m :: j <= m <= k && !NoFiles(run[m], id)) <==>
      (exists n :: j <= n < k && Lands(run[n], moves[n], id))
  {
    if m :| j <= m <= k && !NoFiles(run[m], id) {
      FirstFile(run, moves, j, m, id);
    }
    if n :| j <= n < k && Lands(run[n], moves[n], id) {
      InvHolds(run, moves, n);
      assert StepAt(run, moves, n) && ShutAt(run, n, id);
      if NoFiles(run[n], id) {
        FilesLand(run[n], moves[n], id);
        assert !NoFiles(run[n + 1], id);
      }
    }
  }

  // ----- When files can come -----

  /** A continuation in which the account stays shut. */
  predicate IsPath(s: State, path: seq<State>, moves: seq<Move>, id: Id)
  {
    && |path| == |moves| + 1 && path[0] == s && (forall i :: 0 <= i < |moves| ==> StepAt(path, moves, i))
    && forall i :: 0 <= i < |path| ==> ShutAt(path, i, id)
  }

  /** Files of the account can come while it stays shut. */
  ghost predicate FilesCanCome(s: State, id: Id)
  {
    exists path: seq<State>, moves: seq<Move> :: IsPath(s, path, moves, id) && !NoFiles(path[|moves|], id)
  }

  lemma {:induction false} StaysWithoutFiles(s: State, path: seq<State>, moves: seq<Move>, k: nat, id: Id)
    requires IsPath(s, path, moves, id) && k < |path| && Inv(s) && NoFiles(s, id) && !Outstanding(s, id)
    ensures Inv(path[k]) && NoFiles(path[k], id) && !Outstanding(path[k], id)
  {
    if k > 0 {
      StaysWithoutFiles(s, path, moves, k - 1, id);
      assert StepAt(path, moves, k - 1) && ShutAt(path, k - 1, id);
      StepKeepsInv(path[k - 1], moves[k - 1]);
      FilesLand(path[k - 1], moves[k - 1], id);
      NoneComesUp(path[k - 1], moves[k - 1], id);
    }
  }

  lemma LandingKeepsShut(s: State, i: nat, id: Id)
    requires Inv(s) && Shut(s, id) && i in s.actors && s.actors[i] == DroppedWriting(id)
    ensures Shut(Step(s, Advance(i, true, {0})), id)
  {
    var t := Step(s, Advance(i, true, {0}));
    if !Final(s, id) {
      var j :| j in s.actors && Purged(s.actors[j], id);
      assert j in t.actors && t.actors[j] == s.actors[j];
    }
  }

  /** An account that is shut and has no files can get some while it stays shut if and only if a file job of a dropped
      download of it is outstanding. */
  lemma FilesCanComeExactly(s: State, id: Id)
    requires Inv(s) && Shut(s, id) && NoFiles(s, id)
    ensures FilesCanCome(s, id) <==> Outstanding(s, id)
  {
    if Outstanding(s, id) {
      var i :| i in s.actors && s.actors[i] == DroppedWriting(id);
      var move := Advance(i, true, {0});
      LandingKeepsShut(s, i, id);
      FilesLand(s, move, id);
      assert StepAt([s, Step(s, move)], [move], 0);
      assert IsPath(s, [s, Step(s, move)], [move], id);
    }
    if path: seq<State>, moves: seq<Move> :| IsPath(s, path, moves, id) && !NoFiles(path[|moves|], id) {
      if !Outstanding(s, id) {
        StaysWithoutFiles(s, path, moves, |moves|, id);
      }
    }
  }

  /** So the purge of a removal decides: files of the account can come afterwards, while the removal goes on and after
      it, if and only if such a job is outstanding when the purge is made. */
  lemma PurgeDecides(s: State, i: nat, keys: set<nat>)
    requires Inv(s) && i in s.actors && s.actors[i].RemovePurging?
    ensures FilesCanCome(Step(s, Advance(i, true, keys)), s.actors[i].id) <==> Outstanding(s, s.actors[i].id)
  {
    var id, move := s.actors[i].id, Advance(i, true, keys);
    var t := Step(s, move);
    StepKeepsInv(s, move);
    assert Purged(t.actors[i], id);
    FilesCanComeExactly(t, id);
    if Outstanding(s, id) {
      var j :| j in s.actors && s.actors[j] == DroppedWriting(id);
      assert t.actors[j] == DroppedWriting(id);
    }
  }

  /** Only a later accounts.remove of the same id that fails, or an accounts.add, takes the tombstone away. */
  lemma FinalEnds(s: State, move: Move, id: Id)
    requires Inv(s) && Enabled(s, move) && Final(s, id) && !Final(Step(s, move), id)
    ensures move.Advance? && s.actors[move.i].id == id
      && (s.actors[move.i].RemoveUnmarking? || s.actors[move.i].AddUnmarking?)
  {
  }

  function SyncAgenda(s: State, i: nat, keys: set<nat>): State
    requires i in s.actors && s.actors[i].AgendaWaiting? && s.lock.None?
  {
    var t := Step(Step(s, Advance(i, true, keys)), Advance(i, true, keys));
    if t.actors[i].AgendaWriting? then Step(t, Advance(i, true, keys)) else t
  }

  lemma SyncAgendaEffect(s: State, i: nat, keys: set<nat>)
    requires i in s.actors && s.actors[i].AgendaWaiting? && s.lock.None?
    ensures var id, t := s.actors[i].id, SyncAgenda(s, i, keys);
      t.files == s.files && t.agenda == if id in s.removed then s.agenda else OthersOf(s.agenda, id) + Rows(id, keys)
  {
  }

  /** An agenda synchronization that waited for the lock while its account was removed writes tasks and events of the
      removed account if and only if the tombstone is missing when it gets the lock. */
  lemma ResurrectsExactly(s: State, i: nat, keys: set<nat>)
    requires i in s.actors && s.actors[i].AgendaWaiting? && s.lock.None? && keys != {}
    requires s.actors[i].id in s.gone && Empty(s, s.actors[i].id)
    ensures Empty(SyncAgenda(s, i, keys), s.actors[i].id) <==> s.actors[i].id in s.removed
  {
    var id := s.actors[i].id;
    var key :| key in keys;
    SyncAgendaEffect(s, i, keys);
    assert Row(id, key) in Rows(id, keys);
  }

  function Download(s: State, i: nat, keys: set<nat>): State
    requires i in s.actors && s.actors[i].DownloadWaiting? && s.lock.None?
  {
    var t := Step(Step(s, Advance(i, true, keys)), Advance(i, true, keys));
    if i in t.actors then Step(t, Advance(i, true, keys)) else t
  }

  /** A download that waited for the lock while its account was removed stores a file of the removed account if and only
      if the tombstone is missing when it gets the lock and the very provider it was started with is active again. */
  lemma DownloadResurrectsExactly(s: State, i: nat, keys: set<nat>)
    requires i in s.actors && s.actors[i].DownloadWaiting? && s.lock.None? && keys != {}
    requires s.actors[i].id in s.gone && Empty(s, s.actors[i].id)
    ensures var id := s.actors[i].id;
      !Empty(Download(s, i, keys), id) <==>
        id !in s.removed && id in s.providers && s.providers[id] == s.actors[i].instance
  {
    var key :| key in keys;
    assert Row(s.actors[i].id, key) in Rows(s.actors[i].id, keys);
  }

  /** These are the only ways back: a removed account without tasks, events and files gets some in a step if and only if
      the step is the write of an agenda synchronization, of a download, or of the file job of a dropped download of
      that account. */
  lemma OnlyWritesResurrect(s: State, move: Move, id: Id)
    requires Inv(s) && Enabled(s, move) && id in s.gone && Empty(s, id)
    ensures !Empty(Step(s, move), id) <==> move.Advance? && Writes(s.actors[move.i], move.ok, move.keys, id)
  {
    if move.Advance? {
      var a := s.actors[move.i];
      RemoveAndAddBringNothing(s, move.i, a, move.ok, move.keys, id);
      SyncBrings(s, move.i, a, move.ok, move.keys, id);
      OtherBrings(s, move.i, a, move.ok, move.keys, id);
      OtherBringsNoAgenda(s, move.i, a, move.ok, move.keys, id);
    }
  }

  ghost predicate Reachable(s: State)
  {
    exists run: seq<State>, moves: seq<Move> :: IsRun(run, moves) && run[|moves|] == s
  }

  lemma Extend(s: State, move: Move) returns (t: State)
    requires Reachable(s) && Enabled(s, move)
    ensures t == Step(s, move) && Reachable(t)
  {
    var run: seq<State>, moves: seq<Move> :| IsRun(run, moves) && run[|moves|] == s;
    t := Step(s, move);
    var run', moves' := run + [t], moves + [move];
    assert run'[0] == run[0];
    forall i | 0 <= i < |moves'| ensures StepAt(run', moves', i) {
      assert i < |moves| ==> StepAt(run, moves, i);
    }
    assert IsRun(run', moves') && run'[|moves'|] == t;
  }

  lemma ExtendAs(s: State, i: nat, ok: bool, keys: set<nat>, t: State)
    requires Reachable(s) && i in s.actors && (Waiting(s.actors[i]) ==> s.lock.None?)
    requires t == Act(s, i, s.actors[i], ok, keys)
    ensures Reachable(t)
  {
    var u := Extend(s, Advance(i, ok, keys));
  }

  /** A task at a step that holds the lock. */
  function At(s: State, i: nat, a: Actor): State { s.(actors := s.actors[i := a], lock := Some(i)) }

  lemma ExtendAt(s: State, i: nat, a: Actor, t: State, b: Actor)
    requires Reachable(At(s, i, a)) && !Waiting(a) && t.actors == s.actors
    requires Act(At(s, i, a), i, a, true, {}) == Become(At(t, i, a), i, b)
    ensures Reachable(At(t, i, b))
  {
    ExtendAs(At(s, i, a), i, true, {}, Become(At(t, i, a), i, b));
    assert At(t, i, a).actors[i := b] == t.actors[i := b];
  }

  lemma Leave(s: State, i: nat, a: Actor, t: State)
    requires Reachable(At(s, i, a)) && !Waiting(a) && i !in s.actors && s.lock.None?
    requires t.actors == s.actors && t.lock.None? && Act(At(s, i, a), i, a, true, {}) == Done(At(t, i, a), i)
    ensures Reachable(t)
  {
    assert At(t, i, a).actors - {i} == t.actors;
    ExtendAs(At(s, i, a), i, true, {}, t);
  }

  lemma Enter(s: State, i: nat, a: Actor, b: Actor)
    requires Reachable(s) && i !in s.actors && s.lock.None? && Startable(s, a) && Waiting(a)
    requires Act(Become(s, i, a), i, a, true, {}) == Locked(Become(s, i, a), i, b)
    ensures Reachable(At(s, i, b))
  {
    var u := Extend(s, Start(i, a));
    assert s.actors[i := a][i := b] == s.actors[i := b];
    ExtendAs(u, i, true, {}, At(s, i, b));
  }

  lemma AddsUpTo(s: State, i: nat, id: Id) returns (t: State)
    requires Reachable(s) && s.lock.None? && i !in s.actors
    ensures t == Stored(Unmark(s, id), id)
    ensures Reachable(At(t, i, AddPublishing(id)))
  {
    Enter(s, i, AddWaiting(id), AddUnmarking(id));
    var s1 := Unmark(s, id);
    ExtendAt(s, i, AddUnmarking(id), s1, AddStoring(id));
    t := Stored(s1, id);
    ExtendAt(s1, i, AddStoring(id), t, AddPublishing(id));
  }

  lemma Adds(s: State, i: nat, id: Id) returns (t: State)
    requires Reachable(s) && s.lock.None? && i !in s.actors && id !in s.gone
    ensures Reachable(t)
    ensures t == Insert(s.(removed := s.removed - {id}, accounts := s.accounts + {id}, gone := s.gone - {id},
                           reopened := s.reopened - {id}), id)
  {
    var u := AddsUpTo(s, i, id);
    t := Insert(u, id);
    Leave(u, i, AddPublishing(id), t);
  }

  lemma RemoveTakes(s: State, i: nat, id: Id, provider: Option<Instance>) returns (t: State)
    requires Reachable(s) && s.lock.None? && i !in s.actors
    requires provider == if id in s.providers then Some(s.providers[id]) else None
    ensures t == s.(removed := s.removed + {id}, providers := s.providers - {id})
    ensures Reachable(At(t, i, RemovePurging(id, provider)))
  {
    Enter(s, i, RemoveWaiting(id), RemoveMarking(id));
    var s1 := s.(removed := s.removed + {id});
    ExtendAt(s, i, RemoveMarking(id), s1, RemoveTaking(id));
    t := s1.(providers := s1.providers - {id});
    ExtendAt(s1, i, RemoveTaking(id), t, RemovePurging(id, provider));
  }

  /** accounts.remove up to the deletion of the account row. */
  lemma RemovesUpTo(s: State, i: nat, id: Id, provider: Option<Instance>) returns (t: State)
    requires Reachable(s) && s.lock.None? && i !in s.actors
    requires provider == if id in s.providers then Some(s.providers[id]) else None
    ensures t == s.(removed := s.removed + {id}, providers := s.providers - {id}, files := {})
    ensures Reachable(At(t, i, RemoveDeleting(id, provider)))
  {
    var s2 := RemoveTakes(s, i, id, provider);
    t := s2.(files := {});
    ExtendAt(s2, i, RemovePurging(id, provider), t, RemoveRevoking(id, provider));
    ExtendAt(t, i, RemoveRevoking(id, provider), t, RemoveDeleting(id, provider));
  }

  /** A successful accounts.remove. */
  lemma Removes(s: State, i: nat, id: Id) returns (t: State)
    requires Reachable(s) && s.lock.None? && i !in s.actors && id in s.accounts
    ensures Reachable(t)
    ensures t == Delete(s.(removed := s.removed + {id}, providers := s.providers - {id}, files := {}), id)
  {
    var provider := if id in s.providers then Some(s.providers[id]) else None;
    var u := RemovesUpTo(s, i, id, provider);
    t := Delete(u, id);
    Leave(u, i, RemoveDeleting(id, provider), t);
  }

  /** Puts back the provider a failed removal took. */
  function Restored(s: State, id: Id, provider: Option<Instance>): State
  {
    if provider.Some? then s.(providers := s.providers[id := provider.value]) else s
  }

  /** accounts.remove of an account that was removed before: it fails, takes the tombstone away, and puts back the
      provider it found. */
  lemma RemovesAgain(s: State, i: nat, id: Id, provider: Option<Instance>) returns (t: State)
    requires Reachable(s) && s.lock.None? && i !in s.actors
    requires id in s.gone && id !in s.accounts
    requires provider == if id in s.providers then Some(s.providers[id]) else None
    ensures Reachable(t)
    ensures t == Restored(Unmark(s.(removed := s.removed + {id}, providers := s.providers - {id}, files := {}), id),
                          id, provider)
  {
    var u := RemovesUpTo(s, i, id, provider);
    t := Restored(Unmark(u, id), id, provider);
    FailedRemoveUnmarks(u, i, id, provider, t);
  }

  lemma FailedRemoveUnmarks(u: State, i: nat, id: Id, provider: Option<Instance>, t: State)
    requires Reachable(At(u, i, RemoveDeleting(id, provider))) && u.lock.None? && i !in u.actors
    requires id !in u.accounts && t == Restored(Unmark(u, id), id, provider)
    ensures Reachable(t)
  {
    ExtendAt(u, i, RemoveDeleting(id, provider), u, RemoveUnmarking(id, provider));
    ExtendAt(u, i, RemoveUnmarking(id, provider), Unmark(u, id), RemoveRestoring(id, provider));
    Restores(Unmark(u, id), i, id, provider);
  }

  lemma Restores(s: State, i: nat, id: Id, provider: Option<Instance>)
    requires Reachable(At(s, i, RemoveRestoring(id, provider))) && s.lock.None? && i !in s.actors
    ensures Reachable(Restored(s, id, provider))
  {
    Leave(s, i, RemoveRestoring(id, provider), Restored(s, id, provider));
  }

  /** The state before the repeated removal: a synchronization of the removed account waits for the lock. */
  lemma RemovedWhileSyncWaits(id: Id) returns (t: State)
    ensures Reachable(t) && t.lock.None? && t.actors == map[1 := AgendaWaiting(id)]
    ensures id in t.gone && id !in t.accounts && id !in t.providers && t.agenda == {}
  {
    var s0 := INITIAL;
    assert Reachable(s0) by { assert IsRun([s0], []) && [s0][0] == s0; }
    var s1 := Adds(s0, 0, id);
    var s2 := Extend(s1, Start(1, SyncIdle(id)));
    var s3 := s2.(actors := map[1 := AgendaWaiting(id)]);
    assert s2.actors[1 := AgendaWaiting(id)] == s3.actors;
    ExtendAs(s2, 1, false, {0}, s3);
    t := Removes(s3, 2, id);
  }

  /** From the start the daemon gets to a state without the tombstone of a removed account and with an agenda
      synchronization of it waiting for the lock: a client repeats accounts.remove, the repeated call finds no
      account row, fails, and its clean-up takes away the tombstone that the first call left. The waiting
      synchronization then stores a task of the removed account. */
  lemma RepeatedRemoveResurrects(id: Id) returns (before: State, after: State)
    ensures Reachable(before) && id in before.gone && id !in before.removed && Empty(before, id)
    ensures Reachable(after) && id in after.gone && !Empty(after, id)
  {
    var s := RemovedWhileSyncWaits(id);
    before := RemovesAgain(s, 2, id, None);
    after := WaitingSyncWrites(before, id);
  }

  lemma SyncEnters(s: State, id: Id)
    requires Reachable(s) && s.lock.None? && s.actors == map[1 := AgendaWaiting(id)]
    ensures Reachable(At(s, 1, AgendaChecking(id)))
  {
    ExtendAs(s, 1, true, {0}, At(s, 1, AgendaChecking(id)));
  }

  lemma SyncPasses(s: State, id: Id)
    requires Reachable(At(s, 1, AgendaChecking(id))) && s.actors == map[1 := AgendaWaiting(id)] && id !in s.removed
    ensures Reachable(At(s, 1, AgendaWriting(id)))
  {
    ExtendAt(s, 1, AgendaChecking(id), s, AgendaWriting(id));
  }

  lemma WaitingSyncWrites(s: State, id: Id) returns (t: State)
    requires Reachable(s) && s.lock.None? && s.actors == map[1 := AgendaWaiting(id)] && id !in s.removed
    ensures Reachable(t) && t.gone == s.gone && !Empty(t, id)
  {
    SyncEnters(s, id);
    SyncPasses(s, id);
    var u := At(s, 1, AgendaWriting(id));
    t := SyncStep(u, 1, AgendaWriting(id), true, {0});
    ExtendAs(u, 1, true, {0}, t);
    assert Row(id, 0) in t.agenda by { assert Row(id, 0) in Rows(id, {0}); }
  }

  /** An account is removed while a reauthorization of it is awaited. */
  lemma RemovedWhileReauthorizing(id: Id) returns (t: State)
    ensures Reachable(t) && t.lock.None? && t.actors == map[1 := ReauthAuthorizing(id)]
    ensures id in t.gone && id !in t.accounts && t.agenda == {}
  {
    var s0 := INITIAL;
    assert Reachable(s0) by { assert IsRun([s0], []) && [s0][0] == s0; }
    var s1 := Adds(s0, 0, id);
    var s2 := Extend(s1, Start(1, ReauthAuthorizing(id)));
    t := Removes(s2, 2, id);
  }

  /** The reauthorization succeeds and publishes its provider. */
  lemma ReauthorizationEnds(s: State, id: Id) returns (t: State)
    requires Reachable(s) && s.actors == map[1 := ReauthAuthorizing(id)] && s.lock.None?
    ensures Reachable(t) && t == Insert(s, id).(actors := map[])
  {
    var u := Become(Insert(s, id), 1, ReauthSaving(id));
    ExtendAs(s, 1, true, {}, u);
    t := Done(u, 1);
    ExtendAs(u, 1, true, {}, t);
  }

  lemma DownloadEnters(s: State, id: Id, instance: Instance)
    requires Reachable(s) && s.lock.None? && s.actors == map[1 := DownloadWaiting(id, instance)]
    ensures Reachable(At(s, 1, DownloadChecking(id, instance)))
  {
    ExtendAs(s, 1, true, {0}, At(s, 1, DownloadChecking(id, instance)));
  }

  lemma DownloadPasses(s: State, id: Id, instance: Instance)
    requires Reachable(At(s, 1, DownloadChecking(id, instance)))
    requires id !in s.removed && id in s.providers && s.providers[id] == instance
    ensures Reachable(At(s, 1, DownloadWriting(id)))
  {
    ExtendAt(s, 1, DownloadChecking(id, instance), s, DownloadWriting(id));
  }

  lemma WaitingDownloadWrites(s: State, id: Id, instance: Instance) returns (t: State)
    requires Reachable(s) && s.lock.None? && s.actors == map[1 := DownloadWaiting(id, instance)]
    requires id !in s.removed && id in s.providers && s.providers[id] == instance
    ensures Reachable(t) && t.gone == s.gone && exists r :: r in t.files && r.account == id
  {
    DownloadEnters(s, id, instance);
    DownloadPasses(s, id, instance);
    var u := At(s, 1, DownloadWriting(id));
    t := OtherStep(u, 1, DownloadWriting(id), true, {0});
    ExtendAs(u, 1, true, {0}, t);
    assert Row(id, 0) in t.files by { assert Row(id, 0) in Rows(id, {0}); }
  }

  /** From the start the daemon gets to a state in which a download of a removed account waits for the lock, the
      tombstone is gone and the provider of the download is active: a reauthorization that outlived the removal
      publishes a provider, a download starts with it, and a repeated accounts.remove fails, takes the tombstone away
      and puts the provider back. The waiting download then stores a file of the removed account. */
  lemma RepeatedRemoveRestoresDownload(id: Id) returns (before: State, after: State)
    ensures Reachable(before) && id in before.gone && id !in before.removed && Empty(before, id)
    ensures before.actors.Keys == {1} && before.actors[1].DownloadWaiting? && before.actors[1].id == id
    ensures Reachable(after) && id in after.gone && exists r :: r in after.files && r.account == id
  {
    var r := RemovedWhileReauthorizing(id);
    var s := ReauthorizationEnds(r, id);
    var instance := s.providers[id];
    var u := Extend(s, Start(1, DownloadWaiting(id, instance)));
    before := RemovesAgain(u, 2, id, Some(instance));
    after := WaitingDownloadWrites(before, id, instance);
  }

  /** A download of an account that is stored and active waits for the lock. */
  lemma DownloadStarts(id: Id) returns (t: State, instance: Instance)
    ensures Reachable(t) && t.lock.None? && t.actors == map[1 := DownloadWaiting(id, instance)]
    ensures id in t.accounts && id !in t.removed && id in t.providers && t.providers[id] == instance && t.agenda == {}
  {
    var s0 := INITIAL;
    assert Reachable(s0) by { assert IsRun([s0], []) && [s0][0] == s0; }
    var s1 := Adds(s0, 0, id);
    instance := s1.providers[id];
    t := Extend(s1, Start(1, DownloadWaiting(id, instance)));
  }

  /** It is dropped while it writes. */
  lemma DownloadIsDropped(id: Id) returns (t: State)
    ensures Reachable(t) && t.lock.None? && t.actors == map[1 := DroppedWriting(id)]
    ensures id in t.accounts && t.agenda == {}
  {
    var s, instance := DownloadStarts(id);
    DownloadEnters(s, id, instance);
    DownloadPasses(s, id, instance);
    t := Extend(At(s, 1, DownloadWriting(id)), Cancel(1));
  }

  /** A client starts a download and disconnects while the file is written; the account is removed, and then the file
      job comes to its end: the account has a file although it is gone and its tombstone stands. */
  lemma DroppedDownloadReturns(id: Id) returns (before: State, after: State)
    ensures Reachable(before) && Final(before, id) && id in before.removed && Empty(before, id) && before.lock.None?
    ensures before.actors == map[1 := DroppedWriting(id)]
    ensures Reachable(after) && Final(after, id) && id in after.removed && !NoFiles(after, id) && after.actors == map[]
  {
    var s := DownloadIsDropped(id);
    before := Removes(s, 2, id);
    after := Extend(before, Advance(1, true, {0}));
    assert Row(id, 0) in after.files by { assert Row(id, 0) in Rows(id, {0}); }
  }
}
