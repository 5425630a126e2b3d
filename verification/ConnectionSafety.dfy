/** Liveness, bounds, conservation and order of a connection, over every interleaving. */
module ConnectionSafety {
  import opened Wrappers
  import opened Connection

  predicate Steps(run: seq<State>, moves: seq<Move>)
  {
    && |run| == |moves| + 1
    && forall i :: 0 <= i < |moves| ==> Enabled(run[i], moves[i]) && run[i + 1] == Step(run[i], moves[i])
  }

  predicate IsRun(run: seq<State>, moves: seq<Move>) { Steps(run, moves) && run[0] == INITIAL }

  // ----- Sums over the queues and task sets -----

  function Sum<T>(items: seq<T>, weight: T -> nat): nat
  {
    if items == [] then 0 else Sum(items[..|items| - 1], weight) + weight(items[|items| - 1])
  }

  lemma SumSnoc<T>(items: seq<T>, last: T, weight: T -> nat)
    ensures Sum(items + [last], weight) == Sum(items, weight) + weight(last)
  {
    assert (items + [last])[..|items|] == items;
  }

  lemma {:induction false} SumWithout<T>(items: seq<T>, i: nat, weight: T -> nat)
    requires i < |items|
    ensures Sum(items, weight) == Sum(Without(items, i), weight) + weight(items[i])
  {
    var last := |items| - 1;
    if i == last {
      assert Without(items, i) == items[..last];
    } else {
      SumWithout(items[..last], i, weight);
      assert Without(items, i) == Without(items[..last], i) + [items[last]];
      SumSnoc(Without(items[..last], i), items[last], weight);
    }
  }

  lemma SumUpdate<T>(items: seq<T>, i: nat, item: T, weight: T -> nat)
    requires i < |items|
    ensures Sum(items[i := item], weight) + weight(items[i]) == Sum(items, weight) + weight(item)
  {
    SumWithout(items, i, weight);
    SumWithout(items[i := item], i, weight);
    assert Without(items[i := item], i) == Without(items, i);
  }

  // ----- Liveness -----

  function WorkerWeight(w: Worker): nat
  {
    match w case Waiting => 0 case Working(_) => 4 case Sending(_) => 3
  }

  function ReaderWeight(r: Reader): nat
  {
    match r case Dispatching(_) => 5 case Delivering(_) => 4 case Finished => 1
  }

  function ModeWeight(m: Mode): nat
  {
    match m case Selecting => 0 case Subscribing(_) => 2 case Writing(_) => 1
  }

  /** How many internal steps can still happen at most. */
  function Measure(s: State): nat
  {
    ModeWeight(s.mode) + (if s.pending.Some? then 6 else 0) + 5 * |s.queue| + WorkerWeight(s.worker)
    + Sum(s.readers, ReaderWeight) + 2 * |s.responses|
  }

  predicate Drained(s: State)
  {
    s.mode.Selecting? && s.pending.None? && s.queue == [] && s.worker.Waiting? && s.readers == [] && s.responses == []
  }

  lemma InternalStepLowersMeasure(s: State, move: Move)
    requires Enabled(s, move) && Internal(move)
    ensures Measure(Step(s, move)) < Measure(s)
  {
    match move
    case ReaderFinish(i) => SumUpdate(s.readers, i, Step(s, move).readers[i], ReaderWeight);
    case ReaderSend(i) => SumUpdate(s.readers, i, Finished, ReaderWeight);
    case Join(i) => SumWithout(s.readers, i, ReaderWeight);
    case _ =>
  }

  /** An internal step that can be taken in a state that still holds work. */
  function SomeStep(s: State): Move
  {
    if s.mode.Writing? then CompleteWrite
    else if s.mode.Subscribing? then CompleteSubscribe
    else if s.responses != [] then TakeResponse
    else if s.worker.Sending? then WorkerSend
    else if s.worker.Working? then WorkerFinish
    else if s.queue != [] then WorkerReceive
    else if s.pending.Some? then Reserve
    else if s.readers != [] && s.readers[0].Dispatching? then ReaderFinish(0)
    else if s.readers != [] && s.readers[0].Delivering? then ReaderSend(0)
    else Join(0)
  }

  lemma NeverStuck(s: State)
    ensures Drained(s) || (Internal(SomeStep(s)) && Enabled(s, SomeStep(s)))
  {
  }

  /** Once input stops, every sequence of internal steps is finite, and one that cannot be continued has drained the
      connection: no reachable state is a deadlock. */
  lemma {:induction false} ConnectionDrains(run: seq<State>, moves: seq<Move>)
    requires Steps(run, moves) && forall i :: 0 <= i < |moves| ==> Internal(moves[i])
    ensures |moves| + Measure(run[|moves|]) <= Measure(run[0])
    ensures Drained(run[|moves|]) || (Internal(SomeStep(run[|moves|])) && Enabled(run[|moves|], SomeStep(run[|moves|])))
  {
    NeverStuck(run[|moves|]);
    if moves != [] {
      var last := |moves| - 1;
      assert run[..last + 1][last] == run[last];
      ConnectionDrains(run[..last + 1], moves[..last]);
      InternalStepLowersMeasure(run[last], moves[last]);
    }
  }

  // ----- Bounds -----

  predicate Bounded(s: State)
  {
    |s.responses| <= MAX_IN_FLIGHT && |s.queue| <= MAX_IN_FLIGHT && Tasks(s) <= MAX_IN_FLIGHT
  }

  /** At most 32 queued responses, 32 queued ordered requests, one pending and 32 tasks ever exist. */
  lemma {:induction false} BoundsHold(run: seq<State>, moves: seq<Move>, k: nat)
    requires IsRun(run, moves) && k < |run|
    ensures Bounded(run[k])
  {
    if k > 0 {
      BoundsHold(run, moves, k - 1);
      assert run[k] == Step(run[k - 1], moves[k - 1]);
    }
  }

  // ----- Conservation -----

  function OfRequest(request: Request, id: RpcId): nat { if request.id == Some(id) then 1 else 0 }

  function OfOutput(output: Output, id: RpcId): nat { if output.Answer? && output.id == id then 1 else 0 }

  function OfReader(reader: Reader, id: RpcId): nat
  {
    match reader
    case Dispatching(request) => OfRequest(request, id)
    case Delivering(output) => OfOutput(output, id)
    case Finished => 0
  }

  function OfWorker(w: Worker, id: RpcId): nat
  {
    match w
    case Waiting => 0
    case Working(request) => OfRequest(request, id)
    case Sending(output) => OfOutput(output, id)
  }

  function OfMode(m: Mode, id: RpcId): nat
  {
    match m
    case Selecting => 0
    case Subscribing(request) => OfRequest(request, id)
    case Writing(output) => OfOutput(output, id)
  }

  function OfPending(p: Option<Request>, id: RpcId): nat
  {
    match p case Some(request) => OfRequest(request, id) case None => 0
  }

  function RequestsWith(id: RpcId): Request -> nat { request => OfRequest(request, id) }

  function OutputsWith(id: RpcId): Output -> nat { output => OfOutput(output, id) }

  function ReadersWith(id: RpcId): Reader -> nat { reader => OfReader(reader, id) }

  /** How many requests with an id were read. */
  function Received(s: State, id: RpcId): nat { Sum(s.read, RequestsWith(id)) }

  /** How many answers to an id were written. */
  function Answered(s: State, id: RpcId): nat { Sum(s.written, OutputsWith(id)) }

  /** How many requests or answers with an id are inside the daemon. */
  function Held(s: State, id: RpcId): nat
  {
    OfMode(s.mode, id) + OfPending(s.pending, id) + Sum(s.queue, RequestsWith(id)) + OfWorker(s.worker, id)
    + Sum(s.readers, ReadersWith(id)) + Sum(s.responses, OutputsWith(id))
  }

  /** An id moves between the places of the daemon and is neither lost nor doubled. */
  predicate Balanced(s: State, t: State, id: RpcId)
  {
    Received(t, id) + Answered(s, id) + Held(s, id) == Received(s, id) + Answered(t, id) + Held(t, id)
  }

  lemma ReadConserves(s: State, request: Request, id: RpcId)
    requires Enabled(s, ReadFrame(Valid(request)))
    ensures Balanced(s, Step(s, ReadFrame(Valid(request))), id)
  {
    SumSnoc(s.read, request, RequestsWith(id));
    if request.lane.Parallel? {
      SumSnoc(s.readers, Dispatching(request), ReadersWith(id));
    }
  }

  lemma ReaderConserves(s: State, move: Move, id: RpcId)
    requires Enabled(s, move) && (move.ReaderFinish? || move.ReaderSend? || move.Join?)
    ensures Balanced(s, Step(s, move), id)
  {
    if move.Join? {
      SumWithout(s.readers, move.i, ReadersWith(id));
    } else {
      SumUpdate(s.readers, move.i, Step(s, move).readers[move.i], ReadersWith(id));
      if move.ReaderSend? {
        SumSnoc(s.responses, s.readers[move.i].output, OutputsWith(id));
      }
    }
  }

  lemma WorkerConserves(s: State, move: Move, id: RpcId)
    requires Enabled(s, move) && (move.WorkerReceive? || move.WorkerFinish? || move.WorkerSend?)
    ensures Balanced(s, Step(s, move), id)
  {
    if move.WorkerReceive? {
      SumWithout(s.queue, 0, RequestsWith(id));
      assert Without(s.queue, 0) == s.queue[1..];
    } else if move.WorkerSend? {
      SumSnoc(s.responses, s.worker.output, OutputsWith(id));
    }
  }

  lemma LoopConserves(s: State, move: Move, id: RpcId)
    requires Enabled(s, move)
    requires move.Notify? || move.Reserve? || move.TakeResponse? || move.CompleteWrite? || move.CompleteSubscribe?
    ensures Balanced(s, Step(s, move), id)
  {
    if move.Reserve? {
      SumSnoc(s.queue, s.pending.value, RequestsWith(id));
    } else if move.TakeResponse? {
      SumWithout(s.responses, 0, OutputsWith(id));
      assert Without(s.responses, 0) == s.responses[1..];
    } else if move.CompleteWrite? {
      SumSnoc(s.written, s.mode.output, OutputsWith(id));
    }
  }

  lemma StepConserves(s: State, move: Move, id: RpcId)
    requires Enabled(s, move)
    ensures Balanced(s, Step(s, move), id)
  {
    if move.ReadFrame? {
      if move.frame.Valid? {
        ReadConserves(s, move.frame.request, id);
      }
    } else if move.ReaderFinish? || move.ReaderSend? || move.Join? {
      ReaderConserves(s, move, id);
    } else if move.WorkerReceive? || move.WorkerFinish? || move.WorkerSend? {
      WorkerConserves(s, move, id);
    } else {
      LoopConserves(s, move, id);
    }
  }

  /** In every run each id read is answered or still held, counted with multiplicity: an id is answered at most as
      often as it was read, never when only notifications were read, and exactly as often once the connection
      drained. */
  lemma {:induction false} RequestsConserved(run: seq<State>, moves: seq<Move>, k: nat, id: RpcId)
    requires IsRun(run, moves) && k < |run|
    ensures Received(run[k], id) == Answered(run[k], id) + Held(run[k], id)
    ensures Drained(run[k]) ==> Answered(run[k], id) == Received(run[k], id)
  {
    if k > 0 {
      RequestsConserved(run, moves, k - 1, id);
      StepConserves(run[k - 1], moves[k - 1], id);
    }
  }

  // ----- Order -----

  function IfOrdered(request: Request): seq<Request> { if request.lane.Ordered? then [request] else [] }

  function OrderedRequests(requests: seq<Request>): seq<Request>
  {
    if requests == [] then [] else OrderedRequests(requests[..|requests| - 1]) + IfOrdered(requests[|requests| - 1])
  }

  function IdOf(request: Request): seq<RpcId> { match request.id case Some(id) => [id] case None => [] }

  /** The ids of the requests that want an answer. */
  function PresentIds(requests: seq<Request>): seq<RpcId>
  {
    if requests == [] then [] else PresentIds(requests[..|requests| - 1]) + IdOf(requests[|requests| - 1])
  }

  function OrderedAnswer(output: Output): seq<RpcId>
  {
    if output.Answer? && output.lane.Ordered? then [output.id] else []
  }

  function OrderedAnswers(outputs: seq<Output>): seq<RpcId>
  {
    if outputs == [] then [] else OrderedAnswers(outputs[..|outputs| - 1]) + OrderedAnswer(outputs[|outputs| - 1])
  }

  function PendingSeq(p: Option<Request>): seq<Request> { match p case Some(request) => [request] case None => [] }

  function ModeOutputs(m: Mode): seq<Output> { if m.Writing? then [m.output] else [] }

  function WorkerOutputs(w: Worker): seq<Output>
  {
    match w
    case Waiting => []
    case Working(request) => (match request.id case Some(id) => [Answer(id, Ordered)] case None => [])
    case Sending(output) => [output]
  }

  /** What is written, in writing, queued and still owed by the worker, in the order it leaves. */
  function Before(s: State): seq<Output> { s.written + ModeOutputs(s.mode) }

  function Outgoing(s: State): seq<Output> { Before(s) + s.responses + WorkerOutputs(s.worker) }

  predicate LanesTyped(s: State)
  {
    && (s.pending.Some? ==> s.pending.value.lane.Ordered?)
    && (forall i :: 0 <= i < |s.readers| && s.readers[i].Delivering? ==> OrderedAnswer(s.readers[i].output) == [])
  }

  /** Taken in arrival order. */
  predicate ExecutedInOrder(s: State)
  {
    s.executed + s.queue + PendingSeq(s.pending) == OrderedRequests(s.read)
  }

  /** Answered in the order taken. */
  predicate AnsweredInOrder(s: State) { OrderedAnswers(Outgoing(s)) == PresentIds(s.executed) }

  lemma {:induction false} OrderedConcat(a: seq<Output>, b: seq<Output>)
    ensures OrderedAnswers(a + b) == OrderedAnswers(a) + OrderedAnswers(b)
  {
    if b == [] {
      assert a + b == a;
    } else {
      var last := |b| - 1;
      assert (a + b)[..|a + b| - 1] == a + b[..last];
      OrderedConcat(a, b[..last]);
    }
  }

  lemma OrderedSingle(x: Output)
    ensures OrderedAnswers([x]) == OrderedAnswer(x)
  {
    assert [x][..0] == [];
  }

  lemma OrderedAppend(a: seq<Output>, x: Output)
    requires OrderedAnswer(x) == []
    ensures OrderedAnswers(a + [x]) == OrderedAnswers(a)
  {
    OrderedConcat(a, [x]);
    OrderedSingle(x);
  }

  /** Outputs of other lanes do not disturb the ordered answers. */
  lemma OrderedInsert(a: seq<Output>, x: Output, b: seq<Output>)
    requires OrderedAnswer(x) == []
    ensures OrderedAnswers((a + [x]) + b) == OrderedAnswers(a + b)
  {
    OrderedAppend(a, x);
    OrderedConcat(a + [x], b);
    OrderedConcat(a, b);
  }

  lemma StepKeepsLanes(s: State, move: Move)
    requires Enabled(s, move) && LanesTyped(s)
    ensures LanesTyped(Step(s, move))
  {
    var t := Step(s, move);
    forall i | 0 <= i < |t.readers| && t.readers[i].Delivering?
      ensures OrderedAnswer(t.readers[i].output) == []
    {
      var from := if move.Join? && i >= move.i then i + 1 else i;
      assert from < |s.readers| ==> t.readers[i] == s.readers[from] || move.ReaderFinish?;
    }
  }

  lemma StepKeepsExecution(s: State, move: Move)
    requires Enabled(s, move) && LanesTyped(s) && ExecutedInOrder(s)
    ensures ExecutedInOrder(Step(s, move))
  {
    var t := Step(s, move);
    if move.ReadFrame? && move.frame.Valid? {
      var request := move.frame.request;
      assert (s.read + [request])[..|s.read|] == s.read;
      assert OrderedRequests(t.read) == OrderedRequests(s.read) + IfOrdered(request);
      assert PendingSeq(s.pending) == [] && PendingSeq(t.pending) == IfOrdered(request);
    } else if move.WorkerReceive? {
      assert t.executed + t.queue == s.executed + s.queue;
    } else if move.Reserve? {
      assert t.executed + t.queue + [] == s.executed + s.queue + PendingSeq(s.pending);
    }
  }

  lemma OrderedInsertBefore(a: seq<Output>, x: Output, b: seq<Output>, c: seq<Output>)
    requires OrderedAnswer(x) == []
    ensures OrderedAnswers(a + [x] + b + c) == OrderedAnswers(a + [] + b + c)
  {
    OrderedInsert(a, x, b + c);
    assert a + [x] + b + c == a + [x] + (b + c);
    assert a + [] + b + c == a + (b + c);
  }

  lemma InsertsOutput(s: State, t: State, x: Output)
    requires t.written == s.written && t.responses == s.responses && t.worker == s.worker
    requires ModeOutputs(s.mode) == [] && ModeOutputs(t.mode) == [x] && OrderedAnswer(x) == []
    ensures OrderedAnswers(Outgoing(t)) == OrderedAnswers(Outgoing(s))
  {
    OrderedInsertBefore(s.written, x, s.responses, WorkerOutputs(s.worker));
  }

  lemma InsertsOther(s: State, move: Move)
    requires Enabled(s, move) && (move.ReadFrame? || move.Notify? || move.CompleteSubscribe?)
    ensures OrderedAnswers(Outgoing(Step(s, move))) == OrderedAnswers(Outgoing(s))
    ensures Step(s, move).executed == s.executed
  {
    var t := Step(s, move);
    if t.mode.Writing? {
      InsertsOutput(s, t, t.mode.output);
    } else {
      assert Outgoing(t) == Outgoing(s);
    }
  }

  lemma ReaderInserts(s: State, i: nat)
    requires Enabled(s, ReaderSend(i)) && LanesTyped(s)
    ensures OrderedAnswers(Outgoing(Step(s, ReaderSend(i)))) == OrderedAnswers(Outgoing(s))
    ensures Step(s, ReaderSend(i)).executed == s.executed
  {
    var x := s.readers[i].output;
    OrderedInsert(Before(s) + s.responses, x, WorkerOutputs(s.worker));
    assert Before(s) + (s.responses + [x]) == Before(s) + s.responses + [x];
  }

  lemma PassesOn(s: State, move: Move)
    requires Enabled(s, move)
    requires !move.ReadFrame? && !move.Notify? && !move.CompleteSubscribe? && !move.ReaderSend? && !move.WorkerReceive?
    ensures Outgoing(Step(s, move)) == Outgoing(s) && Step(s, move).executed == s.executed
  {
    var t := Step(s, move);
    if move.WorkerSend? {
      assert Before(s) + (s.responses + [s.worker.output]) + [] == Before(s) + s.responses + [s.worker.output];
    } else if move.TakeResponse? {
      assert s.written + [s.responses[0]] + s.responses[1..] == s.written + [] + s.responses;
    } else if move.CompleteWrite? {
      assert Before(t) == Before(s);
    }
  }

  /** The worker takes a request: its answer, if it wants one, joins the end of the outgoing stream. */
  lemma WorkerTakes(s: State)
    requires Enabled(s, WorkerReceive)
    ensures OrderedAnswers(Outgoing(Step(s, WorkerReceive))) == OrderedAnswers(Outgoing(s)) + IdOf(s.queue[0])
    ensures PresentIds(Step(s, WorkerReceive).executed) == PresentIds(s.executed) + IdOf(s.queue[0])
  {
    var joined := WorkerOutputs(Working(s.queue[0]));
    JoinedAnswers(s.queue[0]);
    NothingOwed(s);
    OrderedConcat(Before(s) + s.responses, joined);
    assert (s.executed + [s.queue[0]])[..|s.executed|] == s.executed;
  }

  lemma JoinedAnswers(request: Request)
    ensures OrderedAnswers(WorkerOutputs(Working(request))) == IdOf(request)
  {
    if request.id.Some? {
      OrderedSingle(Answer(request.id.value, Ordered));
    }
  }

  lemma NothingOwed(s: State)
    requires s.worker.Waiting?
    ensures Outgoing(s) == Before(s) + s.responses
  {
  }

  /** Answers and executions change together. */
  lemma AnswersFollow(
      before: seq<RpcId>, after: seq<RpcId>, executed: seq<RpcId>, executed': seq<RpcId>, s: State, t: State)
    requires before == OrderedAnswers(Outgoing(s)) && after == OrderedAnswers(Outgoing(t))
    requires executed == PresentIds(s.executed) && executed' == PresentIds(t.executed)
    requires before == executed ==> after == executed'
    ensures AnsweredInOrder(s) ==> AnsweredInOrder(t)
  {
  }

  lemma StepKeepsAnswers(s: State, move: Move)
    requires Enabled(s, move) && LanesTyped(s)
    ensures AnsweredInOrder(s) ==> AnsweredInOrder(Step(s, move))
  {
    var t := Step(s, move);
    if move.WorkerReceive? {
      WorkerTakes(s);
    } else if move.ReaderSend? {
      ReaderInserts(s, move.i);
    } else if move.ReadFrame? || move.Notify? || move.CompleteSubscribe? {
      InsertsOther(s, move);
    } else {
      PassesOn(s, move);
    }
    AnswersFollow(OrderedAnswers(Outgoing(s)), OrderedAnswers(Outgoing(t)),
      PresentIds(s.executed), PresentIds(t.executed), s, t);
  }

  lemma {:induction false} OrderHolds(run: seq<State>, moves: seq<Move>, k: nat)
    requires IsRun(run, moves) && k < |run|
    ensures LanesTyped(run[k]) && ExecutedInOrder(run[k]) && AnsweredInOrder(run[k])
  {
    if k > 0 {
      OrderHolds(run, moves, k - 1);
      StepKeepsLanes(run[k - 1], moves[k - 1]);
      StepKeepsExecution(run[k - 1], moves[k - 1]);
      StepKeepsAnswers(run[k - 1], moves[k - 1]);
    }
  }

  /** In every run requests outside the reader and subscription lanes are executed and answered in arrival order:
      what was executed is a prefix of what arrived, what was answered a prefix of what was executed. */
  lemma OrderedLaneIsFifo(run: seq<State>, moves: seq<Move>, k: nat)
    requires IsRun(run, moves) && k < |run|
    ensures run[k].executed <= OrderedRequests(run[k].read)
    ensures OrderedAnswers(run[k].written) <= PresentIds(run[k].executed)
  {
    OrderHolds(run, moves, k);
    ExecutedPrefix(run[k]);
    AnsweredPrefix(run[k]);
  }

  lemma ExecutedPrefix(s: State)
    requires ExecutedInOrder(s)
    ensures s.executed <= OrderedRequests(s.read)
  {
    assert s.executed + s.queue + PendingSeq(s.pending) == s.executed + (s.queue + PendingSeq(s.pending));
  }

  lemma AnsweredPrefix(s: State)
    requires AnsweredInOrder(s)
    ensures OrderedAnswers(s.written) <= PresentIds(s.executed)
  {
    var rest := ModeOutputs(s.mode) + s.responses + WorkerOutputs(s.worker);
    assert Outgoing(s) == s.written + rest;
    OrderedConcat(s.written, rest);
  }

  // ----- The design the loop avoids -----

  /** The loop with an awaited send in place of the reserve branch: while a request waits for the ordered queue no
      other branch of the loop is polled. */
  predicate AwaitedEnabled(s: State, move: Move)
  {
    && Enabled(s, move)
    && (s.pending.Some? ==> !move.ReadFrame? && !move.Notify? && !move.Join? && !move.TakeResponse?)
  }

  ghost predicate AwaitedReaches(t: State)
  {
    exists run: seq<State>, moves: seq<Move> ::
      && IsRun(run, moves) && run[|moves|] == t
      && forall i :: 0 <= i < |moves| ==> AwaitedEnabled(run[i], moves[i])
  }

  ghost predicate AwaitedStuck(s: State)
  {
    !Drained(s) && forall move: Move :: Internal(move) ==> !AwaitedEnabled(s, move)
  }

  /** With the awaited send the connection is stuck exactly when both bounded queues are full and the loop and the
      worker each wait for the other. */
  lemma AwaitedStuckExactly(s: State)
    ensures AwaitedStuck(s) <==>
      && s.mode.Selecting? && s.pending.Some? && |s.queue| >= MAX_IN_FLIGHT
      && s.worker.Sending? && |s.responses| >= MAX_IN_FLIGHT
      && forall i :: 0 <= i < |s.readers| ==> !s.readers[i].Dispatching?
  {
    if AwaitedStuck(s) {
      assert !AwaitedEnabled(s, CompleteWrite) && !AwaitedEnabled(s, CompleteSubscribe);
      assert !AwaitedEnabled(s, Reserve) && !AwaitedEnabled(s, WorkerFinish) && !AwaitedEnabled(s, WorkerReceive);
      assert !AwaitedEnabled(s, WorkerSend) && !AwaitedEnabled(s, TakeResponse);
      forall i | 0 <= i < |s.readers| ensures !s.readers[i].Dispatching? {
        assert !AwaitedEnabled(s, ReaderFinish(i));
      }
      NeverStuck(s);
      assert !AwaitedEnabled(s, SomeStep(s));
    }
  }

  lemma AwaitedExtend(s: State, move: Move)
    requires AwaitedReaches(s) && AwaitedEnabled(s, move)
    ensures AwaitedReaches(Step(s, move))
  {
    var run: seq<State>, moves: seq<Move> :|
      && IsRun(run, moves) && run[|moves|] == s
      && forall i :: 0 <= i < |moves| ==> AwaitedEnabled(run[i], moves[i]);
    var run', moves' := run + [Step(s, move)], moves + [move];
    assert run'[0] == run[0];
    forall i | 0 <= i < |moves'|
      ensures AwaitedEnabled(run'[i], moves'[i]) && run'[i + 1] == Step(run'[i], moves'[i])
    {
      assert run'[i] == run[i];
      if i < |moves| { assert run'[i + 1] == run[i + 1]; }
    }
    assert IsRun(run', moves') && run'[|moves'|] == Step(s, move);
  }

  /** Only the ordered lane holds anything, and the loop writes nothing. */
  predicate Loaded(s: State, queued: nat, responses: nat)
  {
    s.mode.Selecting? && s.pending.None? && |s.queue| == queued && s.readers == [] && |s.responses| == responses
  }

  const ORDERED_REQUEST := Request(Some(1), Ordered)
  const ORDERED_FRAME := ReadFrame(Valid(ORDERED_REQUEST))

  lemma AwaitedFrame(s: State) returns (t: State)
    requires AwaitedReaches(s) && Loaded(s, |s.queue|, |s.responses|) && |s.queue| < MAX_IN_FLIGHT
    ensures AwaitedReaches(t) && t.worker == s.worker && Loaded(t, |s.queue| + 1, |s.responses|)
    ensures t.queue == s.queue + [ORDERED_REQUEST] && |t.read| == |s.read| + 1 && t.written == s.written
  {
    AwaitedExtend(s, ORDERED_FRAME);
    t := Step(s, ORDERED_FRAME);
    AwaitedExtend(t, Reserve);
    t := Step(t, Reserve);
  }

  lemma AwaitedWork(s: State) returns (t: State)
    requires AwaitedReaches(s) && Loaded(s, 1, |s.responses|) && s.worker.Waiting? && s.queue == [ORDERED_REQUEST]
    ensures AwaitedReaches(t) && t.worker.Sending? && Loaded(t, 0, |s.responses|)
    ensures t.read == s.read && t.written == s.written
  {
    AwaitedExtend(s, WorkerReceive);
    t := Step(s, WorkerReceive);
    AwaitedExtend(t, WorkerFinish);
    t := Step(t, WorkerFinish);
  }

  /** 66 ordered requests read before the client's answers are taken lead there from the start: with the awaited send
      the daemon deadlocks, which the reserve branch makes impossible (NeverStuck). */
  lemma AwaitedSendDeadlocks() returns (s: State)
    ensures AwaitedReaches(s) && AwaitedStuck(s)
    ensures |s.read| == 66 && s.written == []
  {
    s := INITIAL;
    assert AwaitedReaches(s) by { assert IsRun([s], []) && [s][0] == s; }
    for i := 0 to MAX_IN_FLIGHT
      invariant AwaitedReaches(s) && Loaded(s, 0, i) && s.worker.Waiting?
      invariant |s.read| == i && s.written == []
    {
      s := AwaitedFrame(s);
      s := AwaitedWork(s);
      AwaitedExtend(s, WorkerSend);
      s := Step(s, WorkerSend);
    }
    s := AwaitedFrame(s);
    s := AwaitedWork(s);
    for i := 0 to MAX_IN_FLIGHT
      invariant AwaitedReaches(s) && Loaded(s, i, MAX_IN_FLIGHT) && s.worker.Sending?
      invariant |s.read| == 33 + i && s.written == []
    {
      s := AwaitedFrame(s);
    }
    AwaitedExtend(s, ORDERED_FRAME);
    s := Step(s, ORDERED_FRAME);
    AwaitedStuckExactly(s);
  }
}
