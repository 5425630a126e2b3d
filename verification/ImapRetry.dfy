/** The pooled IMAP session, its retry loop, and calls that are dropped halfway. */
module ImapRetry {
  import opened Wrappers
  import opened ImapErrors

  datatype SessionErrorAction = Return | InvalidateAndReturn | InvalidateAndRetry

  predicate Lost(error: ImapError) { error.Connection? || error.CommandTimeout? }

  function ActionFor(error: ImapError, retrySafe: bool, alreadyRetried: bool): SessionErrorAction
  {
    if !Lost(error) then Return
    else if retrySafe && !alreadyRetried then InvalidateAndRetry
    else InvalidateAndReturn
  }

  type Session = nat

  /** How a connection attempt or a run of the closure ends. The whole call may be dropped in the middle of either, with
      the task of a client that disconnects. */
  datatype Ending = Done | Failed(error: ImapError) | Dropped

  /** A connection attempt, or one run of the caller's closure on a session. */
  datatype Event =
    | Connected(session: Session)
    | NotConnected(end: Ending)
    | Ran(session: Session, ending: Ending)

  function EndingOf(event: Event): Ending
  {
    match event case Connected(_) => Done case NotConnected(end) => end case Ran(_, ending) => ending
  }

  predicate Loses(ending: Ending) { ending.Failed? && Lost(ending.error) }

  function Runs(events: seq<Event>): nat
  {
    if events == [] then 0 else Runs(events[..|events| - 1]) + if events[|events| - 1].Ran? then 1 else 0
  }

  lemma RunsSnoc(events: seq<Event>, event: Event)
    ensures Runs(events + [event]) == Runs(events) + if event.Ran? then 1 else 0
  {
    assert (events + [event])[..|events|] == events;
  }

  /** What one call may do to the server: the closure runs again only when the call is retry-safe and its first run, or
      the connection attempt before it, lost the connection; a session that was lost is never used again. */
  predicate Disciplined(events: seq<Event>, retrySafe: bool, lane: Option<Session>)
  {
    && Runs(events) <= (if retrySafe then 2 else 1)
    && (forall i :: 0 <= i < |events| - 1 && !events[i].Connected? ==> retrySafe && Loses(EndingOf(events[i])))
    && (forall i :: 0 <= i < |events| && events[i].Ran? && Loses(events[i].ending) ==>
          lane != Some(events[i].session)
          && forall j :: i < j < |events| && events[j].Ran? ==> events[j].session != events[i].session)
  }

  /** One turn of the loop: perhaps a connection attempt, then the closure if there is a session. */
  predicate Turn(events: seq<Event>, bound: nat)
  {
    && ((|events| == 1 && !events[0].Connected?) || (|events| == 2 && events[0].Connected? && events[1].Ran?))
    && forall i :: 0 <= i < |events| && events[i].Ran? ==> events[i].session < bound
  }

  function LastEnding(events: seq<Event>): Ending
    requires events != []
  {
    EndingOf(events[|events| - 1])
  }

  /** The connection was lost in the turn. */
  predicate LostTurn(events: seq<Event>) { events != [] && Loses(LastEnding(events)) }

  /** A turn on a connection made for it. */
  predicate FreshTurn(events: seq<Event>, bound: nat)
  {
    || (|events| == 1 && events[0].NotConnected?)
    || (|events| == 2 && events[0] == Connected(bound) && events[1].Ran? && events[1].session == bound)
  }

  /** A call is one turn, and a second one on a fresh connection only when the call is retry-safe and the first turn
      lost the connection; a lost session leaves the lane. */
  predicate CallShape(first: seq<Event>, second: seq<Event>, retrySafe: bool, lane: Option<Session>, bound: nat)
  {
    && Turn(first, bound)
    && (second != [] ==>
      retrySafe && LostTurn(first) && FreshTurn(second, bound) && (lane.Some? ==> lane.value == bound))
    && (LostTurn(if second == [] then first else second) ==> lane.None?)
  }

  lemma TurnRuns(events: seq<Event>, bound: nat)
    requires Turn(events, bound) || FreshTurn(events, bound)
    ensures Runs(events) <= 1
  {
    assert events[..|events| - 1][..0] == [];
    if |events| == 2 {
      assert events[..1] == [events[0]];
      RunsSnoc([], events[0]);
    }
  }

  lemma {:induction false} RunsConcat(a: seq<Event>, b: seq<Event>)
    ensures Runs(a + b) == Runs(a) + Runs(b)
  {
    if b == [] {
      assert a + b == a;
    } else {
      assert (a + b)[..|a + b| - 1] == a + b[..|b| - 1];
      RunsConcat(a, b[..|b| - 1]);
    }
  }

  /** Whatever the server does, a mutating closure runs at most once and a read closure at most twice, nothing is
      repeated unless the connection was lost, and a session that was lost is dropped and never used again. */
  lemma CallsAreDisciplined(first: seq<Event>, second: seq<Event>, retrySafe: bool, lane: Option<Session>, bound: nat)
    requires CallShape(first, second, retrySafe, lane, bound)
    ensures Disciplined(first + second, retrySafe, lane)
  {
    RunsConcat(first, second);
    TurnRuns(first, bound);
    if second != [] {
      TurnRuns(second, bound);
    }
  }

  // ----- The lane over many calls -----

  /** What an event leaves in the lane: a dropped call leaves the session its closure was using. */
  function Left(event: Event): Option<Session>
  {
    match event
    case Connected(session) => Some(session)
    case NotConnected(_) => None
    case Ran(session, ending) => if Loses(ending) then None else Some(session)
  }

  /** The lane before the i-th event. */
  function Lane(events: seq<Event>, i: nat): Option<Session>
    requires i <= |events|
  {
    if i == 0 then None else Left(events[i - 1])
  }

  /** Connections are made for an empty lane and named by their event, and closures run on the session of the lane. */
  predicate Fits(event: Event, lane: Option<Session>, i: nat)
  {
    match event
    case Connected(session) => lane.None? && session == i
    case NotConnected(end) => lane.None? && !end.Done?
    case Ran(session, _) => lane == Some(session) && session < i
  }

  predicate FitsAt(events: seq<Event>, i: nat)
    requires i < |events|
  {
    Fits(events[i], Lane(events, i), i)
  }

  predicate LaneKept(events: seq<Event>) { forall i :: 0 <= i < |events| ==> FitsAt(events, i) }

  /** The events are those of the lane, as the network made them end. */
  predicate History(events: seq<Event>, endings: nat -> Ending)
  {
    LaneKept(events) && forall i :: 0 <= i < |events| ==> EndingOf(events[i]) == endings(i)
  }

  lemma HistorySnoc(events: seq<Event>, event: Event, endings: nat -> Ending)
    requires History(events, endings)
    requires Fits(event, Lane(events, |events|), |events|) && EndingOf(event) == endings(|events|)
    ensures History(events + [event], endings) && Lane(events + [event], |events| + 1) == Left(event)
  {
    forall i | 0 <= i <= |events| ensures FitsAt(events + [event], i) {
      assert i < |events| ==> FitsAt(events, i);
    }
  }

  /** Before the j-th event a closure was dropped on the session: the server may still answer its command. */
  predicate Unfinished(events: seq<Event>, j: nat, session: Session)
    requires j <= |events|
  {
    exists i :: 0 <= i < j && events[i] == Ran(session, Dropped)
  }

  predicate DroppedRun(event: Event) { event.Ran? && event.ending.Dropped? }

  predicate LostRun(event: Event) { event.Ran? && Loses(event.ending) }

  /** Some closure was dropped, and none has lost the connection after that. */
  predicate DroppedSince(events: seq<Event>, j: nat)
    requires j <= |events|
  {
    exists i :: 0 <= i < j && DroppedRun(events[i]) && forall k :: i < k < j ==> !LostRun(events[k])
  }

  lemma {:induction false} SessionStays(events: seq<Event>, i: nat, j: nat)
    requires LaneKept(events) && i < j <= |events| && events[i].Ran?
    requires forall k :: i <= k < j ==> !LostRun(events[k])
    ensures Lane(events, j) == Some(events[i].session)
  {
    if i + 1 < j {
      SessionStays(events, i, j - 1);
      assert FitsAt(events, j - 1);
    }
  }

  lemma {:induction false} LaterSessions(events: seq<Event>, k: nat, j: nat)
    requires LaneKept(events) && k < j <= |events| && LostRun(events[k])
    ensures Lane(events, j).Some? ==> Lane(events, j).value > k
  {
    if k + 1 < j {
      LaterSessions(events, k, j - 1);
      assert FitsAt(events, j - 1);
    }
  }

  /** A closure runs on a session with an unfinished command if and only if a call was dropped in its closure and no run
      since has lost the connection. */
  lemma ReusedExactly(events: seq<Event>, j: nat)
    requires LaneKept(events) && j < |events| && events[j].Ran?
    ensures Unfinished(events, j, events[j].session) <==> DroppedSince(events, j)
  {
    assert FitsAt(events, j);
    if Unfinished(events, j, events[j].session) {
      var i :| 0 <= i < j && events[i] == Ran(events[j].session, Dropped);
      assert FitsAt(events, i);
      forall k | i < k < j ensures !LostRun(events[k]) {
        if LostRun(events[k]) {
          LaterSessions(events, k, j);
        }
      }
    }
    if DroppedSince(events, j) {
      var i :| 0 <= i < j && DroppedRun(events[i]) && forall k :: i < k < j ==> !LostRun(events[k]);
      SessionStays(events, i, j);
      assert events[i] == Ran(events[j].session, Dropped);
    }
  }

  class AsyncImapTransport {
    /** How the n-th connection attempt or run ends. */
    const endings: nat -> Ending
    var lane: Option<Session>
    var events: seq<Event>

    ghost predicate Recorded()
      reads this
    {
      History(events, endings)
    }

    ghost predicate Valid()
      reads this
    {
      Recorded() && lane == Lane(events, |events|) && (lane.Some? ==> lane.value < |events|)
    }

    constructor (endings: nat -> Ending)
      ensures Valid() && this.endings == endings && lane == None && events == []
    {
      this.endings := endings;
      lane, events := None, [];
    }

    method Record(event: Event)
      requires Recorded() && Fits(event, Lane(events, |events|), |events|) && EndingOf(event) == endings(|events|)
      modifies this`events
      ensures Recorded() && events == old(events) + [event] && Lane(events, |events|) == Left(event)
    {
      HistorySnoc(events, event, endings);
      events := events + [event];
    }

    method LockSession() returns (ending: Ending)
      requires Valid()
      modifies this
      ensures Valid() && (ending.Done? ==> lane.Some?)
      ensures old(lane).Some? ==> ending.Done? && lane == old(lane) && events == old(events)
      ensures old(lane).None? ==>
        events == old(events) + [if ending.Done? then Connected(|old(events)|) else NotConnected(ending)]
        && lane == (if ending.Done? then Some(|old(events)|) else None)
    {
      ending := Done;
      if lane.None? {
        ending := endings(|events|);
        if ending.Done? {
          lane := Some(|events|);
          Record(Connected(|events|));
        } else {
          Record(NotConnected(ending));
        }
      }
    }

    /** One turn: the session of the lane, or a new one, and one run of the closure on it. */
    method Attempt() returns (ending: Ending, locked: bool, ghost turn: seq<Event>)
      requires Valid()
      modifies this
      ensures Recorded() && events == old(events) + turn && Turn(turn, |events|)
      ensures ending == LastEnding(turn) && locked == turn[|turn| - 1].Ran?
      ensures old(lane).None? ==> FreshTurn(turn, |old(events)|) && (lane.Some? ==> lane.value == |old(events)|)
      ensures if locked then lane.Some? && lane.value < |events| else lane.None?
      ensures !(locked && Loses(ending)) ==> Valid()
    {
      turn := if lane.None? then [Connected(|events|)] else [];
      ending := LockSession();
      locked := ending.Done?;
      if !locked {
        turn := [NotConnected(ending)];
        return;
      }
      ending := endings(|events|);
      turn := turn + [Ran(lane.value, ending)];
      Record(Ran(lane.value, ending));
    }

    /** A call that is dropped gets to nothing after that. */
    method RunSessionOperation(retrySafe: bool)
      returns (ending: Ending, ghost first: seq<Event>, ghost second: seq<Event>)
      requires Valid()
      modifies this
      ensures Valid() && events == old(events) + first + second
      ensures CallShape(first, second, retrySafe, lane, |old(events)| + |first|)
      ensures ending == LastEnding(if second == [] then first else second)
    {
      var alreadyRetried := false;
      first, second := [], [];
      while true
        invariant Valid() && events == old(events) + first && second == []
        invariant alreadyRetried ==> retrySafe && lane.None? && Turn(first, |events|) && LostTurn(first)
        invariant !alreadyRetried ==> first == []
        decreases !alreadyRetried
      {
        var locked;
        ghost var turn;
        ending, locked, turn := Attempt();
        var action := if ending.Failed? then ActionFor(ending.error, retrySafe, alreadyRetried) else Return;
        if !action.Return? && locked {
          assert Left(events[|events| - 1]).None?;
          lane := None;
        }
        if !action.InvalidateAndRetry? {
          if alreadyRetried {
            second := turn;
          } else {
            first := turn;
          }
          return;
        }
        first := turn;
        alreadyRetried := true;
      }
    }
  }

  /** Two calls, the first of them dropped in its closure: the second runs on the session with the unfinished
      command. */
  method DroppedSessionIsReused(endings: nat -> Ending) returns (transport: AsyncImapTransport)
    requires endings(0).Done? && endings(1).Dropped? && endings(2).Done?
    ensures transport.endings == endings && transport.Valid()
    ensures transport.events == [Connected(0), Ran(0, Dropped), Ran(0, Done)]
    ensures Unfinished(transport.events, 2, 0)
  {
    transport := new AsyncImapTransport(endings);
    var ending, first, second := transport.RunSessionOperation(true);
    assert FitsAt(transport.events, 0) && FitsAt(transport.events, 1);
    assert first == [Connected(0), Ran(0, Dropped)] && second == [];
    ending, first, second := transport.RunSessionOperation(true);
    assert FitsAt(transport.events, 2) && transport.events[1] == Ran(0, Dropped);
  }
}
