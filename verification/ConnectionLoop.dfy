/** The select loop of a connection, run under an arbitrary schedule and drained at the end. */
module ConnectionLoop {
  import opened Wrappers
  import opened Connection
  import opened ConnectionSafety

  /** What holds between any two steps. */
  ghost predicate Sound(s: State)
  {
    && Bounded(s) && LanesTyped(s) && ExecutedInOrder(s) && AnsweredInOrder(s)
    && forall id: RpcId :: Conserved(s, id)
  }

  /** Every request with this id is answered or inside the daemon. */
  predicate Conserved(s: State, id: RpcId) { Received(s, id) == Answered(s, id) + Held(s, id) }

  lemma StartIsSound()
    ensures Sound(INITIAL)
  {
  }

  lemma StepKeepsBounds(s: State, move: Move)
    requires Enabled(s, move) && Bounded(s)
    ensures Bounded(Step(s, move))
  {
  }

  lemma StepKeepsSound(s: State, move: Move)
    requires Enabled(s, move) && Sound(s)
    ensures Sound(Step(s, move))
  {
    StepKeepsBounds(s, move);
    StepKeepsLanes(s, move);
    StepKeepsExecution(s, move);
    StepKeepsAnswers(s, move);
    forall id: RpcId ensures Conserved(Step(s, move), id) {
      assert Conserved(s, id);
      StepConserves(s, move, id);
    }
  }

  /** A drained connection has answered each request as often as it was read, the ordered ones in arrival order. */
  ghost predicate AllAnswered(s: State)
  {
    && (forall id: RpcId :: Answered(s, id) == Received(s, id))
    && s.executed == OrderedRequests(s.read)
    && OrderedAnswers(s.written) == PresentIds(OrderedRequests(s.read))
  }

  lemma DrainedIsAnswered(s: State)
    requires Sound(s) && Drained(s)
    ensures AllAnswered(s)
  {
    forall id: RpcId ensures Answered(s, id) == Received(s, id) {
      assert Conserved(s, id);
    }
    assert s.executed + s.queue + PendingSeq(s.pending) == s.executed;
    assert Outgoing(s) == s.written;
  }

  /** Steps of the daemon write at the end and read nothing. */
  lemma InternalStepWrites(s: State, move: Move)
    requires Enabled(s, move) && Internal(move)
    ensures s.written <= Step(s, move).written && Step(s, move).read == s.read
  {
  }

  /** One connection: the branches of the select loop and the awaits of its tasks, driven until nothing is left. */
  class Client {
    var mode: Mode
    var pending: Option<Request>
    var queue: seq<Request>
    var worker: Worker
    var readers: seq<Reader>
    var responses: seq<Output>
    var written: seq<Output>
    ghost var read: seq<Request>
    ghost var executed: seq<Request>

    ghost function View(): State
      reads this
    {
      State(mode, pending, queue, worker, readers, responses, written, read, executed)
    }

    constructor ()
      ensures View() == INITIAL && Sound(View())
    {
      mode, pending, queue, worker, readers, responses, written := Selecting, None, [], Waiting, [], [], [];
      read, executed := [], [];
      new;
      StartIsSound();
    }

    /** One step: the branch of the loop or the task that is ready. An ordered request is held locally instead of being
        sent to a queue that may be full. */
    method Take(move: Move)
      requires Enabled(View(), move)
      modifies this
      ensures View() == Step(old(View()), move)
    {
      match move {
        case ReadFrame(Malformed) =>
          mode := Writing(ParseError);
        case ReadFrame(Valid(request)) =>
          read := read + [request];
          if request.lane == Inline {
            mode := Subscribing(request);
          } else if request.lane == Parallel {
            readers := readers + [Dispatching(request)];
          } else {
            pending := Some(request);
          }
        case Notify =>
          mode := Writing(Event);
        case Reserve =>
          queue := queue + [pending.value];
          pending := None;
        case WorkerReceive =>
          worker, executed := Working(queue[0]), executed + [queue[0]];
          queue := queue[1..];
        case WorkerFinish =>
          worker := if worker.request.id.Some? then Sending(Answer(worker.request.id.value, Ordered)) else Waiting;
        case WorkerSend =>
          responses := responses + [worker.output];
          worker := Waiting;
        case ReaderFinish(i) =>
          var id := readers[i].request.id;
          readers := readers[i := if id.Some? then Delivering(Answer(id.value, Parallel)) else Finished];
        case ReaderSend(i) =>
          responses := responses + [readers[i].output];
          readers := readers[i := Finished];
        case Join(i) =>
          readers := Without(readers, i);
        case TakeResponse =>
          mode := Writing(responses[0]);
          responses := responses[1..];
        case CompleteWrite =>
          written := written + [mode.output];
          mode := Selecting;
        case CompleteSubscribe =>
          mode := if mode.request.id.Some? then Writing(Answer(mode.request.id.value, Inline)) else Selecting;
      }
    }

    /** Runs under any schedule; what is not ready when its turn comes is passed over. However the client, the events,
        the worker and the readers interleave, the queues stay bounded, every request is answered or held, and the
        ordered lane is executed and answered in arrival order. */
    method Serve(schedule: seq<Move>)
      requires Sound(View())
      modifies this
      ensures Sound(View())
      ensures View().executed <= OrderedRequests(View().read)
      ensures OrderedAnswers(View().written) <= PresentIds(View().executed)
    {
      for i := 0 to |schedule|
        invariant Sound(View())
      {
        if Ready(schedule[i]) {
          StepKeepsSound(View(), schedule[i]);
          Take(schedule[i]);
        }
      }
      ExecutedPrefix(View());
      AnsweredPrefix(View());
    }

    predicate Ready(move: Move)
      reads this
      ensures Ready(move) <==> Enabled(View(), move)
    {
      match move
      case ReadFrame(_) => mode.Selecting? && pending.None? && 1 + |readers| < MAX_IN_FLIGHT
      case Notify => mode.Selecting?
      case Reserve => mode.Selecting? && pending.Some? && |queue| < MAX_IN_FLIGHT
      case WorkerReceive => worker.Waiting? && queue != []
      case WorkerFinish => worker.Working?
      case WorkerSend => worker.Sending? && |responses| < MAX_IN_FLIGHT
      case ReaderFinish(i) => i < |readers| && readers[i].Dispatching?
      case ReaderSend(i) => i < |readers| && readers[i].Delivering? && |responses| < MAX_IN_FLIGHT
      case Join(i) => mode.Selecting? && i < |readers| && readers[i].Finished?
      case TakeResponse => mode.Selecting? && responses != []
      case CompleteWrite => mode.Writing?
      case CompleteSubscribe => mode.Subscribing?
    }

    /** The next step when the client sends nothing more. */
    method NextStep() returns (move: Move)
      requires !Drained(View())
      ensures Internal(move) && Enabled(View(), move)
    {
      NeverStuck(View());
      if mode.Writing? { move := CompleteWrite; }
      else if mode.Subscribing? { move := CompleteSubscribe; }
      else if responses != [] { move := TakeResponse; }
      else if worker.Sending? { move := WorkerSend; }
      else if worker.Working? { move := WorkerFinish; }
      else if queue != [] { move := WorkerReceive; }
      else if pending.Some? { move := Reserve; }
      else if readers[0].Dispatching? { move := ReaderFinish(0); }
      else if readers[0].Delivering? { move := ReaderSend(0); }
      else { move := Join(0); }
    }

    predicate Idle()
      reads this
      ensures Idle() <==> Drained(View())
    {
      mode.Selecting? && pending.None? && queue == [] && worker.Waiting? && readers == [] && responses == []
    }

    /** When the client sends nothing more the loop ends by itself, with every request answered. */
    method Drain()
      requires Sound(View())
      modifies this
      ensures Sound(View()) && Drained(View()) && AllAnswered(View())
      ensures View().read == old(View().read) && old(View().written) <= View().written
    {
      while !Idle()
        invariant Sound(View()) && View().read == old(View().read) && old(View().written) <= View().written
        decreases Measure(View())
      {
        var move := NextStep();
        StepKeepsSound(View(), move);
        InternalStepLowersMeasure(View(), move);
        InternalStepWrites(View(), move);
        Take(move);
      }
      DrainedIsAnswered(View());
    }
  }
}
