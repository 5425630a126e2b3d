/** The markers that keep two synchronizations of one account apart: a foreground call sets the marker, and the call or
    the background task it hands over to takes it away. A call whose client disconnects is dropped at an await point. */
module SyncMarkers {
  type Id = string

  datatype State = State(
    marked: set<Id>,            // background_syncing
    calls: map<nat, Id>,        // foreground calls at an account they have marked
    tasks: map<nat, Id>)        // background tasks and the account they work for

  const INITIAL := State({}, map[], map[])

  datatype Move =
    | Begin(i: nat, id: Id)
    | Skip(id: Id)              // the marker is there already: the call goes on to the next account
    | Finish(i: nat)            // an error, a removed account, or no further mailboxes
    | HandOver(i: nat, j: nat)
    | TaskEnd(j: nat)
    | Disconnect(i: nat)
    | Restart

  predicate Enabled(s: State, move: Move)
  {
    match move
    case Begin(i, id) => i !in s.calls && id !in s.marked
    case Skip(id) => id in s.marked
    case Finish(i) => i in s.calls
    case HandOver(i, j) => i in s.calls && j !in s.tasks
    case TaskEnd(j) => j in s.tasks
    case Disconnect(i) => i in s.calls
    case Restart => true
  }

  function Step(s: State, move: Move): State
    requires Enabled(s, move)
  {
    match move
    case Begin(i, id) => s.(marked := s.marked + {id}, calls := s.calls[i := id])
    case Skip(_) => s
    case Finish(i) => s.(marked := s.marked - {s.calls[i]}, calls := s.calls - {i})
    case HandOver(i, j) => s.(calls := s.calls - {i}, tasks := s.tasks[j := s.calls[i]])
    case TaskEnd(j) => s.(marked := s.marked - {s.tasks[j]}, tasks := s.tasks - {j})
    case Disconnect(i) => s.(calls := s.calls - {i})
    case Restart => INITIAL
  }

  // ----- Owners -----

  predicate Called(s: State, id: Id) { exists i :: i in s.calls && s.calls[i] == id }

  predicate Tasked(s: State, id: Id) { exists j :: j in s.tasks && s.tasks[j] == id }

  /** Somebody is at work who will take the marker away. */
  predicate Owned(s: State, id: Id) { Called(s, id) || Tasked(s, id) }

  predicate Stranded(s: State, id: Id) { id in s.marked && !Owned(s, id) }

  /** Every account has at most one call or task, and it is marked. */
  predicate Inv(s: State)
  {
    && (forall i :: i in s.calls ==> s.calls[i] in s.marked)
    && (forall j :: j in s.tasks ==> s.tasks[j] in s.marked)
    && (forall i, k :: i in s.calls && k in s.calls && s.calls[i] == s.calls[k] ==> i == k)
    && (forall j, k :: j in s.tasks && k in s.tasks && s.tasks[j] == s.tasks[k] ==> j == k)
    && (forall i, j :: i in s.calls && j in s.tasks ==> s.calls[i] != s.tasks[j])
  }

  lemma StepKeepsInv(s: State, move: Move)
    requires Inv(s) && Enabled(s, move)
    ensures Inv(Step(s, move))
  {
  }

  /** The call that is dropped had marked this account. */
  predicate Drops(s: State, move: Move, id: Id)
  {
    move.Disconnect? && move.i in s.calls && s.calls[move.i] == id
  }

  lemma CallSurvives(s: State, move: Move, id: Id, i: nat)
    requires Inv(s) && Enabled(s, move) && i in s.calls && s.calls[i] == id
    ensures id in Step(s, move).marked ==> Owned(Step(s, move), id) || Drops(s, move, id)
  {
    var t := Step(s, move);
    if i in t.calls {
      assert t.calls[i] == id;
    } else if move.HandOver? {
      assert t.tasks[move.j] == id;
    }
  }

  lemma TaskSurvives(s: State, move: Move, id: Id, j: nat)
    requires Inv(s) && Enabled(s, move) && j in s.tasks && s.tasks[j] == id
    ensures id in Step(s, move).marked ==> Owned(Step(s, move), id)
  {
    var t := Step(s, move);
    if j in t.tasks {
      assert t.tasks[j] == id;
    }
  }

  lemma NoNewOwner(s: State, move: Move, id: Id)
    requires Inv(s) && Enabled(s, move) && !Owned(s, id)
    ensures Owned(Step(s, move), id) ==> move.Begin? && move.id == id
  {
  }

  lemma DroppedIsStranded(s: State, move: Move, id: Id)
    requires Inv(s) && Enabled(s, move) && Drops(s, move, id)
    ensures Stranded(Step(s, move), id)
  {
    var t := Step(s, move);
    assert forall i :: i in t.calls ==> t.calls[i] == s.calls[i] && i != move.i;
    assert forall j :: j in t.tasks ==> t.tasks[j] == s.tasks[j];
  }

  /** Only a disconnecting client strands a marker, and only a restart frees a stranded one. */
  lemma StrandedExactly(s: State, move: Move, id: Id)
    requires Inv(s) && Enabled(s, move)
    ensures Stranded(Step(s, move), id) <==> Drops(s, move, id) || (Stranded(s, id) && !move.Restart?)
  {
    if Drops(s, move, id) {
      DroppedIsStranded(s, move, id);
    } else if Called(s, id) {
      var i :| i in s.calls && s.calls[i] == id;
      CallSurvives(s, move, id, i);
    } else if Tasked(s, id) {
      var j :| j in s.tasks && s.tasks[j] == id;
      TaskSurvives(s, move, id, j);
    } else {
      NoNewOwner(s, move, id);
    }
    if move.Begin? && move.id == id {
      assert Step(s, move).calls[move.i] == id;
    }
  }

  // ----- Runs -----

  predicate StepsFrom(run: seq<State>, moves: seq<Move>)
  {
    && |run| == |moves| + 1
    && forall k :: 0 <= k < |moves| ==> Enabled(run[k], moves[k]) && run[k + 1] == Step(run[k], moves[k])
  }

  predicate IsRun(run: seq<State>, moves: seq<Move>) { StepsFrom(run, moves) && run[0] == INITIAL }

  lemma {:induction false} InvHolds(run: seq<State>, moves: seq<Move>, k: nat)
    requires IsRun(run, moves) && k < |run|
    ensures Inv(run[k])
  {
    if k > 0 {
      InvHolds(run, moves, k - 1);
      StepKeepsInv(run[k - 1], moves[k - 1]);
    }
  }

  predicate NoRestart(moves: seq<Move>, from: nat, to: nat)
    requires from <= to <= |moves|
  {
    forall k :: from <= k < to ==> !moves[k].Restart?
  }

  /** Step `j` dropped a call that had marked the account, and the daemon has not been restarted since. */
  predicate DroppedAt(run: seq<State>, moves: seq<Move>, j: nat, k: nat, id: Id)
    requires |run| == |moves| + 1 && k <= |moves|
  {
    j < k && Drops(run[j], moves[j], id) && NoRestart(moves, j, k)
  }

  /** In every run a marker is stranded if and only if a client disconnected during a foreground synchronization of that
      account after the last restart. */
  lemma {:induction false} StrandedByDisconnect(run: seq<State>, moves: seq<Move>, k: nat, id: Id)
    requires IsRun(run, moves) && k < |run|
    ensures Stranded(run[k], id) <==> exists j: nat :: DroppedAt(run, moves, j, k, id)
  {
    if k > 0 {
      var last := k - 1;
      StrandedByDisconnect(run, moves, last, id);
      InvHolds(run, moves, last);
      StrandedExactly(run[last], moves[last], id);
      if Drops(run[last], moves[last], id) {
        assert DroppedAt(run, moves, last, k, id);
      }
      if exists j: nat :: DroppedAt(run, moves, j, last, id) {
        var j: nat :| DroppedAt(run, moves, j, last, id);
        assert !moves[last].Restart? ==> DroppedAt(run, moves, j, k, id);
      }
      if exists j: nat :: DroppedAt(run, moves, j, k, id) {
        var j: nat :| DroppedAt(run, moves, j, k, id);
        assert j < last ==> DroppedAt(run, moves, j, last, id);
      }
    }
  }

  /** From here some steps other than a restart lead to a synchronization of the account. */
  ghost predicate SyncsAgain(s: State, id: Id)
  {
    exists run: seq<State>, moves: seq<Move>, i: nat :: LeadsTo(s, run, moves, i, id)
  }

  predicate LeadsTo(s: State, run: seq<State>, moves: seq<Move>, i: nat, id: Id)
  {
    && StepsFrom(run, moves) && run[0] == s && NoRestart(moves, 0, |moves|)
    && Enabled(run[|moves|], Begin(i, id))
  }

  lemma {:induction false} StrandedStays(run: seq<State>, moves: seq<Move>, k: nat, id: Id)
    requires StepsFrom(run, moves) && k < |run| && Inv(run[0]) && NoRestart(moves, 0, |moves|)
    requires Stranded(run[0], id)
    ensures Inv(run[k]) && Stranded(run[k], id)
  {
    if k > 0 {
      StrandedStays(run, moves, k - 1, id);
      StepKeepsInv(run[k - 1], moves[k - 1]);
      StrandedExactly(run[k - 1], moves[k - 1], id);
    }
  }

  lemma FreshCall(calls: map<nat, Id>) returns (i: nat)
    ensures i !in calls
  {
    i := 0;
    var seen: set<nat> := {};
    while i in calls
      invariant seen <= calls.Keys && i !in seen && forall k: nat :: k < i ==> k in seen
      invariant forall k :: k in seen ==> k < i
      decreases |calls.Keys - seen|
    {
      var left := calls.Keys - seen;
      assert i in left && calls.Keys - (seen + {i}) == left - {i};
      seen := seen + {i};
      i := i + 1;
    }
  }

  lemma OneStepFrees(s: State, move: Move, id: Id)
    requires Enabled(s, move) && !move.Restart? && id !in Step(s, move).marked
    ensures SyncsAgain(s, id)
  {
    var i := FreshCall(Step(s, move).calls);
    assert LeadsTo(s, [s, Step(s, move)], [move], i, id);
  }

  /** Without a restart an account can be synchronized again if and only if its marker is not stranded; and then the
      call or task at work needs only to end. */
  lemma SyncsAgainExactly(s: State, id: Id)
    requires Inv(s)
    ensures SyncsAgain(s, id) <==> !Stranded(s, id)
  {
    if Called(s, id) {
      var i :| i in s.calls && s.calls[i] == id;
      OneStepFrees(s, Finish(i), id);
    } else if Tasked(s, id) {
      var j :| j in s.tasks && s.tasks[j] == id;
      OneStepFrees(s, TaskEnd(j), id);
    } else if id !in s.marked {
      var i := FreshCall(s.calls);
      assert LeadsTo(s, [s], [], i, id);
    } else if SyncsAgain(s, id) {
      var run: seq<State>, moves: seq<Move>, i: nat :| LeadsTo(s, run, moves, i, id);
      StrandedStays(run, moves, |moves|, id);
      assert false;
    }
  }

  /** One call and one disconnect are enough: from then on every synchronization of the account is passed over. */
  lemma DisconnectStrands(id: Id) returns (run: seq<State>, moves: seq<Move>)
    ensures IsRun(run, moves) && moves == [Begin(0, id), Disconnect(0)]
    ensures Stranded(run[2], id) && !SyncsAgain(run[2], id)
  {
    moves := [Begin(0, id), Disconnect(0)];
    var s := Step(INITIAL, Begin(0, id));
    run := [INITIAL, s, Step(s, Disconnect(0))];
    InvHolds(run, moves, 2);
    SyncsAgainExactly(run[2], id);
  }
}
