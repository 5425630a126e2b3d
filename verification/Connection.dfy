/** One client connection of the daemon: the select loop, the ordered worker behind a bounded queue, the parallel
    readers, and the bounded response channel, interleaved in any order. */
module Connection {
  import opened Wrappers

  const MAX_IN_FLIGHT: nat := 32

  type RpcId = nat

  /** Cache readers run in parallel, subscriptions run in the loop, everything else in one ordered lane. */
  datatype Lane = Parallel | Ordered | Inline

  /** A request without an id is a notification. */
  datatype Request = Request(id: Option<RpcId>, lane: Lane)

  datatype Frame = Valid(request: Request) | Malformed

  datatype Output = Answer(id: RpcId, lane: Lane) | ParseError | Event

  datatype Worker = Waiting | Working(request: Request) | Sending(output: Output)

  datatype Reader = Dispatching(request: Request) | Delivering(output: Output) | Finished

  /** What the loop itself is awaiting. */
  datatype Mode = Selecting | Subscribing(request: Request) | Writing(output: Output)

  datatype State = State(
    mode: Mode,
    pending: Option<Request>,
    queue: seq<Request>,
    worker: Worker,
    readers: seq<Reader>,
    responses: seq<Output>,
    written: seq<Output>,
    read: seq<Request>,       // every request ever read
    executed: seq<Request>)   // every ordered request the worker ever took

  const INITIAL := State(Selecting, None, [], Waiting, [], [], [], [], [])

  datatype Move =
    | ReadFrame(frame: Frame)
    | Notify
    | Reserve
    | WorkerReceive
    | WorkerFinish
    | WorkerSend
    | ReaderFinish(i: nat)
    | ReaderSend(i: nat)
    | Join(i: nat)
    | TakeResponse
    | CompleteWrite
    | CompleteSubscribe

  /** Frames and events come from outside; every other step is the daemon's own. */
  predicate Internal(move: Move) { !move.ReadFrame? && !move.Notify? }

  /** The worker is a task of the same set and lives as long as the connection. */
  function Tasks(s: State): nat { 1 + |s.readers| }

  predicate Enabled(s: State, move: Move)
  {
    match move
    case ReadFrame(_) => s.mode.Selecting? && s.pending.None? && Tasks(s) < MAX_IN_FLIGHT
    case Notify => s.mode.Selecting?
    case Reserve => s.mode.Selecting? && s.pending.Some? && |s.queue| < MAX_IN_FLIGHT
    case WorkerReceive => s.worker.Waiting? && s.queue != []
    case WorkerFinish => s.worker.Working?
    case WorkerSend => s.worker.Sending? && |s.responses| < MAX_IN_FLIGHT
    case ReaderFinish(i) => i < |s.readers| && s.readers[i].Dispatching?
    case ReaderSend(i) => i < |s.readers| && s.readers[i].Delivering? && |s.responses| < MAX_IN_FLIGHT
    case Join(i) => s.mode.Selecting? && i < |s.readers| && s.readers[i].Finished?
    case TakeResponse => s.mode.Selecting? && s.responses != []
    case CompleteWrite => s.mode.Writing?
    case CompleteSubscribe => s.mode.Subscribing?
  }

  function Accept(s: State, request: Request): State
  {
    var t := s.(read := s.read + [request]);
    match request.lane
    case Inline => t.(mode := Subscribing(request))
    case Parallel => t.(readers := t.readers + [Dispatching(request)])
    case Ordered => t.(pending := Some(request))
  }

  function Without<T>(s: seq<T>, i: nat): seq<T>
    requires i < |s|
  {
    s[..i] + s[i + 1..]
  }

  function Step(s: State, move: Move): State
    requires Enabled(s, move)
  {
    match move
    case ReadFrame(Malformed) => s.(mode := Writing(ParseError))
    case ReadFrame(Valid(request)) => Accept(s, request)
    case Notify => s.(mode := Writing(Event))
    case Reserve => s.(pending := None, queue := s.queue + [s.pending.value])
    case WorkerReceive =>
      s.(queue := s.queue[1..], worker := Working(s.queue[0]), executed := s.executed + [s.queue[0]])
    case WorkerFinish =>
      s.(worker := match s.worker.request.id case Some(id) => Sending(Answer(id, Ordered)) case None => Waiting)
    case WorkerSend => s.(worker := Waiting, responses := s.responses + [s.worker.output])
    case ReaderFinish(i) =>
      s.(readers := s.readers[i := match s.readers[i].request.id
                                   case Some(id) => Delivering(Answer(id, Parallel))
                                   case None => Finished])
    case ReaderSend(i) => s.(readers := s.readers[i := Finished], responses := s.responses + [s.readers[i].output])
    case Join(i) => s.(readers := Without(s.readers, i))
    case TakeResponse => s.(mode := Writing(s.responses[0]), responses := s.responses[1..])
    case CompleteWrite => s.(mode := Selecting, written := s.written + [s.mode.output])
    case CompleteSubscribe =>
      s.(mode := match s.mode.request.id case Some(id) => Writing(Answer(id, Inline)) case None => Selecting)
  }
}
