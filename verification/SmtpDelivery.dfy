/** Sending one message over a pooled SMTP connection, against every server behaviour. */
module SmtpDelivery {
  import opened Wrappers
  import opened Utf8
  import opened DotStuffing

  const MAX_REPLY_LINE: nat := 8192
  const MAX_REPLY: nat := 65536
  const MAX_ADDRESS: nat := 320

  datatype Envelope = Envelope(sender: string, recipients: seq<string>)

  /** Panicked is not a value the caller gets: the task ends there, and in a release build the process. */
  datatype SmtpError = InvalidAddress | InvalidCommand | Failure | Panicked

  type Connection = nat

  /** The first three bytes of a line: a code, something else, or the beginning of a character that goes on after them.
      Taking three bytes off such a line panics. */
  datatype Prefix = Code(code: nat) | Other | Split

  /** A reply line with its length, its first three bytes, and the byte after them. */
  datatype Line = Line(length: nat, prefix: Prefix, separator: char)

  datatype Item = Command(text: string) | Body(bytes: Bytes) | Terminator | Flush

  datatype Io =
    | Opened(connection: Connection)
    | NotOpened
    | Wrote(connection: Connection, item: Item)
    | WriteFailed(connection: Connection, item: Item)
    | Heard(connection: Connection, line: Line)
    | ReadFailed(connection: Connection)

  /** What the network does at each use: whether connecting and writing work, and what a read yields. */
  datatype Behaviour = Behaviour(ok: bool, line: Line)

  // ----- What a trace says about copies of the message -----

  datatype Stage = Talking | BodySent | Ended | Flushed

  /** What was written in full, bodies begun, and bodies whose end was followed by a complete 250 reply. */
  datatype Account = Account(stage: Stage, said: seq<Item>, begun: nat, accepted: nat)

  function Begun(item: Item): nat { if item.Body? then 1 else 0 }

  function NextStage(stage: Stage, item: Item): Stage
  {
    match item
    case Body(_) => BodySent
    case Terminator => if stage.BodySent? then Ended else Talking
    case Flush => if stage.Ended? then Flushed else Talking
    case Command(_) => Talking
  }

  function Observe(a: Account, io: Io): Account
  {
    match io
    case Wrote(_, item) => Account(NextStage(a.stage, item), a.said + [item], a.begun + Begun(item), a.accepted)
    case WriteFailed(_, item) => Account(Talking, a.said, a.begun + Begun(item), a.accepted)
    case Heard(_, line) =>
      if !a.stage.Flushed? || line.prefix != Code(250) then a.(stage := Talking)
      else if line.separator == '-' then a
      else if line.separator == ' ' then a.(stage := Talking, accepted := a.accepted + 1)
      else a.(stage := Talking)
    case _ => a.(stage := Talking)
  }

  const NOTHING := Account(Talking, [], 0, 0)

  function Watch(trace: seq<Io>): Account
  {
    if trace == [] then NOTHING else Observe(Watch(trace[..|trace| - 1]), trace[|trace| - 1])
  }

  lemma WatchSnoc(trace: seq<Io>, io: Io)
    ensures Watch(trace + [io]) == Observe(Watch(trace), io)
  {
    assert (trace + [io])[..|trace|] == trace;
  }

  // ----- What a reply is -----

  /** A line that belongs to a reply with this code. */
  predicate ReplyLine(io: Io, connection: Connection, expected: nat)
  {
    && io.Heard? && io.connection == connection
    && io.line.prefix == Code(expected) && 4 <= io.line.length <= MAX_REPLY_LINE
  }

  /** A line long enough to be sliced, but not between two characters. */
  predicate SplitLine(io: Io, connection: Connection)
  {
    io.Heard? && io.connection == connection && io.line.prefix.Split? && 4 <= io.line.length <= MAX_REPLY_LINE
  }

  function TotalLength(heard: seq<Io>): nat
  {
    if heard == [] then 0
    else TotalLength(heard[..|heard| - 1]) + if heard[|heard| - 1].Heard? then heard[|heard| - 1].line.length else 0
  }

  /** Lines that another line follows. */
  predicate OpenReply(heard: seq<Io>, connection: Connection, expected: nat)
  {
    && (forall i :: 0 <= i < |heard| ==> ReplyLine(heard[i], connection, expected) && heard[i].line.separator == '-')
    && TotalLength(heard) <= MAX_REPLY
  }

  /** Every line carries the code; all but the last have a dash after it, the last one a space; none and not all
      together are too long. */
  predicate CompleteReply(heard: seq<Io>, connection: Connection, expected: nat)
  {
    && heard != [] && OpenReply(heard[..|heard| - 1], connection, expected) && TotalLength(heard) <= MAX_REPLY
    && ReplyLine(heard[|heard| - 1], connection, expected) && heard[|heard| - 1].line.separator == ' '
  }

  /** A line that is sliced inside a character, at a place where the reply was in order so far. */
  predicate PanickingReply(heard: seq<Io>, connection: Connection, expected: nat)
  {
    && heard != [] && OpenReply(heard[..|heard| - 1], connection, expected) && TotalLength(heard) <= MAX_REPLY
    && SplitLine(heard[|heard| - 1], connection)
  }

  lemma ReplySnoc(heard: seq<Io>, io: Io, connection: Connection, expected: nat)
    requires OpenReply(heard, connection, expected)
    ensures TotalLength(heard + [io]) == TotalLength(heard) + if io.Heard? then io.line.length else 0
    ensures CompleteReply(heard + [io], connection, expected) <==>
      TotalLength(heard + [io]) <= MAX_REPLY && ReplyLine(io, connection, expected) && io.line.separator == ' '
    ensures PanickingReply(heard + [io], connection, expected) <==>
      TotalLength(heard + [io]) <= MAX_REPLY && SplitLine(io, connection)
    ensures OpenReply(heard + [io], connection, expected) <==>
      TotalLength(heard + [io]) <= MAX_REPLY && ReplyLine(io, connection, expected) && io.line.separator == '-'
  {
    var longer := heard + [io];
    assert longer[..|heard|] == heard && longer[|heard|] == io;
    if ReplyLine(io, connection, expected) && io.line.separator == '-' {
      assert forall i :: 0 <= i < |longer| ==> longer[i] == if i < |heard| then heard[i] else io;
    }
  }

  /** Whatever code is awaited, "25" and a letter beyond ASCII is such a reply by itself. */
  lemma OneLinePanics(connection: Connection, expected: nat, heard: seq<Io>)
    requires heard == [Heard(connection, Line(9, Split, ' '))]
    ensures PanickingReply(heard, connection, expected)
    ensures !CompleteReply(heard, connection, expected)
  {
    assert heard[..0] == [];
  }

  /** The last thing that happened was such a line. */
  predicate EndsSplit(trace: seq<Io>, connection: Connection)
  {
    trace != [] && SplitLine(trace[|trace| - 1], connection)
  }

  lemma OneHeard(before: seq<Io>, heard: seq<Io>, io: Io)
    ensures (before + heard) + [io] == before + (heard + [io])
    ensures (before + (heard + [io]))[|before|..] == heard + [io]
  {
  }

  /** What a line means for its reply. */
  datatype Verdict = Rejected | Panics | More(total: nat) | Complete

  class Network {
    const behaviour: nat -> Behaviour
    var trace: seq<Io>

    /** The account of the whole trace. */
    ghost function Seen(): Account
      reads this
    {
      Watch(trace)
    }

    constructor (behaviour: nat -> Behaviour)
      ensures this.behaviour == behaviour && trace == []
    {
      this.behaviour := behaviour;
      trace := [];
    }

    method Connect() returns (connection: Option<Connection>)
      modifies this
      ensures trace == old(trace) + [if connection.Some? then Opened(connection.value) else NotOpened]
      ensures Seen() == Observe(old(Seen()), trace[|trace| - 1])
      ensures connection.Some? ==> connection.value == |old(trace)|
    {
      ghost var before := trace;
      connection := if behaviour(|trace|).ok then Some(|trace|) else None;
      trace := trace + [if connection.Some? then Opened(connection.value) else NotOpened];
      WatchSnoc(before, trace[|trace| - 1]);
    }

    method Write(connection: Connection, item: Item) returns (ok: bool)
      modifies this
      ensures trace == old(trace) + [if ok then Wrote(connection, item) else WriteFailed(connection, item)]
      ensures Seen() == Observe(old(Seen()), trace[|trace| - 1])
    {
      ghost var before := trace;
      ok := behaviour(|trace|).ok;
      trace := trace + [if ok then Wrote(connection, item) else WriteFailed(connection, item)];
      WatchSnoc(before, trace[|trace| - 1]);
    }

    method Read(connection: Connection) returns (line: Option<Line>)
      modifies this
      ensures trace == old(trace) + [if line.Some? then Heard(connection, line.value) else ReadFailed(connection)]
      ensures Seen() == Observe(old(Seen()), trace[|trace| - 1])
    {
      ghost var before := trace;
      line := if behaviour(|trace|).ok then Some(behaviour(|trace|).line) else None;
      trace := trace + [if line.Some? then Heard(connection, line.value) else ReadFailed(connection)];
      WatchSnoc(before, trace[|trace| - 1]);
    }
  }

  predicate ValidAddress(address: string)
  {
    && address != "" && |Encode(address)| <= MAX_ADDRESS && '@' in address
    && forall c :: c in address ==> c !in {'\r', '\n', '\0', '<', '>'}
  }

  predicate ValidCommand(text: string)
  {
    (forall c :: c in text ==> c !in {'\r', '\n', '\0'}) && |Encode(text)| <= MAX_REPLY_LINE
  }

  function RecipientCommands(recipients: seq<string>): seq<Item>
  {
    seq(|recipients|, i requires 0 <= i < |recipients| => Command("RCPT TO:<" + recipients[i] + ">"))
  }

  /** The commands before the body, in order. */
  function Commands(envelope: Envelope): seq<Item>
  {
    [Command("MAIL FROM:<" + envelope.sender + ">")] + RecipientCommands(envelope.recipients) + [Command("DATA")]
  }

  lemma NextRecipient(envelope: Envelope, i: nat)
    requires i < |envelope.recipients|
    ensures Commands(envelope)[..i + 2] ==
      Commands(envelope)[..i + 1] + [Command("RCPT TO:<" + envelope.recipients[i] + ">")]
  {
  }

  lemma LastCommand(envelope: Envelope)
    ensures Commands(envelope) == Commands(envelope)[..|envelope.recipients| + 1] + [Command("DATA")]
  {
  }

  function Delivery(rfc822: Bytes): seq<Item> { [Body(Stuffed(rfc822)), Terminator, Flush] }

  /** The whole dialogue of one delivery. */
  function Dialogue(envelope: Envelope, rfc822: Bytes): seq<Item>
  {
    Commands(envelope) + Delivery(rfc822)
  }

  class Xoauth2SmtpTransport {
    const network: Network
    var pooled: Option<Connection>

    constructor (network: Network)
      ensures this.network == network && pooled == None
    {
      this.network := network;
      pooled := None;
    }

    method SmtpLine(connection: Connection, text: string) returns (error: Option<SmtpError>)
      modifies network
      ensures old(network.trace) <= network.trace
      ensures network.trace == old(network.trace) || !network.Seen().stage.Flushed?
      ensures error.None? ==> network.trace != old(network.trace)
      ensures error != Some(Panicked)
      ensures network.Seen().begun == old(network.Seen().begun)
      ensures network.Seen().accepted == old(network.Seen().accepted)
      ensures network.Seen().said == old(network.Seen().said) + if error.None? then [Command(text)] else []
    {
      if !ValidCommand(text) {
        return Some(InvalidCommand);
      }
      var ok := network.Write(connection, Command(text));
      error := if ok then None else Some(Failure);
    }

    /** One line of a reply. */
    method HearLine(connection: Connection, expected: nat, total: nat) returns (verdict: Verdict)
      modifies network
      ensures |network.trace| == |old(network.trace)| + 1
      ensures network.trace == old(network.trace) + [network.trace[|old(network.trace)|]]
      ensures var io := network.trace[|old(network.trace)|];
        var fits := ReplyLine(io, connection, expected) && total + io.line.length <= MAX_REPLY;
        && (verdict.Complete? <==> fits && io.line.separator == ' ')
        && (verdict.More? <==> fits && io.line.separator == '-')
        && (verdict.More? ==> verdict.total == total + io.line.length)
        && (verdict.Panics? <==> SplitLine(io, connection) && total + io.line.length <= MAX_REPLY)
      ensures network.Seen().begun == old(network.Seen().begun) && network.Seen().said == old(network.Seen().said)
      ensures !old(network.Seen()).stage.Flushed? || verdict.More? ==>
        network.Seen().accepted == old(network.Seen().accepted)
      ensures !old(network.Seen()).stage.Flushed? ==> !network.Seen().stage.Flushed?
      ensures old(network.Seen()).stage.Flushed? && expected == 250 ==>
        (verdict.More? ==> network.Seen().stage.Flushed?)
        && (verdict.Complete? ==> network.Seen().accepted == old(network.Seen().accepted) + 1)
      ensures old(network.Seen().accepted) <= network.Seen().accepted <= old(network.Seen().accepted) + 1
    {
      var line := network.Read(connection);
      if line.None? || line.value.length == 0 || line.value.length > MAX_REPLY_LINE {
        return Rejected;
      }
      if total + line.value.length > MAX_REPLY || line.value.length < 4 {
        return Rejected;
      }
      if line.value.prefix.Split? {
        return Panics;
      }
      if line.value.prefix != Code(expected) {
        return Rejected;
      }
      verdict := if line.value.separator == ' ' then Complete
                 else if line.value.separator == '-' then More(total + line.value.length)
                 else Rejected;
    }

    /** Reads one reply, and succeeds if and only if it is complete: nothing is read beyond its last line. Anything else
        is an error, but a line sliced inside a character is a panic. */
    method ExpectSmtp(connection: Connection, expected: nat) returns (error: Option<SmtpError>)
      modifies network
      ensures old(network.trace) <= network.trace
      ensures error.None? <==> CompleteReply(network.trace[|old(network.trace)|..], connection, expected)
      ensures error == Some(Panicked) <==> PanickingReply(network.trace[|old(network.trace)|..], connection, expected)
      ensures error in {None, Some(Panicked), Some(Failure)}
      ensures network.Seen().begun == old(network.Seen().begun)
      ensures !old(network.Seen()).stage.Flushed? ==>
        network.Seen().accepted == old(network.Seen().accepted) && !network.Seen().stage.Flushed?
      ensures old(network.Seen()).stage.Flushed? && expected == 250 && error.None? ==>
        network.Seen().accepted == old(network.Seen().accepted) + 1
      ensures old(network.Seen()).stage.Flushed? ==>
        old(network.Seen().accepted) <= network.Seen().accepted <= old(network.Seen().accepted) + 1
      ensures network.Seen().said == old(network.Seen().said)
    {
      var total := 0;
      ghost var before, heard := network.trace, [];
      while true
        invariant network.trace == before + heard
        invariant OpenReply(heard, connection, expected) && total == TotalLength(heard)
        invariant network.Seen().begun == old(network.Seen().begun)
        invariant network.Seen().accepted == old(network.Seen().accepted)
        invariant !old(network.Seen()).stage.Flushed? ==> !network.Seen().stage.Flushed?
        invariant old(network.Seen()).stage.Flushed? && expected == 250 ==> network.Seen().stage.Flushed?
        invariant network.Seen().said == old(network.Seen().said)
        decreases MAX_REPLY - total
      {
        var verdict := HearLine(connection, expected, total);
        ghost var io := network.trace[|before + heard|];
        ReplySnoc(heard, io, connection, expected);
        OneHeard(before, heard, io);
        heard := heard + [io];
        if !verdict.More? {
          return if verdict.Complete? then None else if verdict.Panics? then Some(Panicked) else Some(Failure);
        }
        total := verdict.total;
      }
    }

    /** One command and its reply. */
    method Exchange(connection: Connection, text: string, expected: nat) returns (error: Option<SmtpError>)
      modifies network
      ensures old(network.trace) <= network.trace
      ensures network.Seen().begun == old(network.Seen().begun)
      ensures network.Seen().accepted == old(network.Seen().accepted)
      ensures old(network.Seen().said) <= network.Seen().said <= old(network.Seen().said) + [Command(text)]
      ensures error.None? ==> network.Seen().said == old(network.Seen().said) + [Command(text)]
      ensures error == Some(Panicked) ==> EndsSplit(network.trace, connection)
    {
      error := SmtpLine(connection, text);
      if error.None? {
        error := ExpectSmtp(connection, expected);
      }
    }

    /** Up to and including DATA. */
    method Introduce(connection: Connection, envelope: Envelope) returns (error: Option<SmtpError>)
      modifies network
      ensures old(network.trace) <= network.trace
      ensures network.Seen().begun == old(network.Seen().begun)
      ensures network.Seen().accepted == old(network.Seen().accepted)
      ensures old(network.Seen().said) <= network.Seen().said <= old(network.Seen().said) + Commands(envelope)
      ensures error.None? ==> network.Seen().said == old(network.Seen().said) + Commands(envelope)
      ensures error == Some(Panicked) ==> EndsSplit(network.trace, connection)
    {
      ghost var before, all := network.Seen().said, Commands(envelope);
      error := Exchange(connection, "MAIL FROM:<" + envelope.sender + ">", 250);
      if error.Some? {
        return;
      }
      for i := 0 to |envelope.recipients|
        invariant old(network.trace) <= network.trace
        invariant network.Seen().begun == old(network.Seen().begun)
        invariant network.Seen().accepted == old(network.Seen().accepted)
        invariant network.Seen().said == before + all[..i + 1]
      {
        NextRecipient(envelope, i);
        error := Exchange(connection, "RCPT TO:<" + envelope.recipients[i] + ">", 250);
        if error.Some? {
          return;
        }
      }
      LastCommand(envelope);
      error := Exchange(connection, "DATA", 354);
    }

    /** The body, its end, and the reply that decides. */
    method HandOver(connection: Connection, rfc822: Bytes) returns (error: Option<SmtpError>)
      modifies network
      ensures old(network.trace) <= network.trace
      ensures network.Seen().begun == old(network.Seen().begun) + 1
      ensures old(network.Seen().accepted) <= network.Seen().accepted <= old(network.Seen().accepted) + 1
      ensures network.Seen().said <= old(network.Seen().said) + Delivery(rfc822)
      ensures error.None? ==> network.Seen().accepted == old(network.Seen().accepted) + 1
      ensures error.None? ==> network.Seen().said == old(network.Seen().said) + Delivery(rfc822)
      ensures error == Some(Panicked) ==> EndsSplit(network.trace, connection)
    {
      var stuffed := DotStuff(rfc822);
      var ok := network.Write(connection, Body(stuffed));
      if ok {
        ok := network.Write(connection, Terminator);
      }
      if ok {
        ok := network.Write(connection, Flush);
      }
      if !ok {
        return Some(Failure);
      }
      error := ExpectSmtp(connection, 250);
    }

    /** The second part of an error tells whether DATA had begun. */
    method Transaction(connection: Connection, envelope: Envelope, rfc822: Bytes)
      returns (result: Result<(), (SmtpError, bool)>)
      modifies network
      ensures old(network.trace) <= network.trace
      ensures result.Ok? ==>
        network.Seen().begun == old(network.Seen().begun) + 1
        && network.Seen().accepted == old(network.Seen().accepted) + 1
        && network.Seen().said == old(network.Seen().said) + Dialogue(envelope, rfc822)
      ensures result.Err? ==>
        network.Seen().begun == old(network.Seen().begun) + (if result.error.1 then 1 else 0)
        && old(network.Seen().accepted) <= network.Seen().accepted
        && network.Seen().accepted - old(network.Seen().accepted) <= network.Seen().begun - old(network.Seen().begun)
        && network.Seen().said <= old(network.Seen().said) + Dialogue(envelope, rfc822)
        && (result.error.0.Panicked? ==> EndsSplit(network.trace, connection))
    {
      var error := Introduce(connection, envelope);
      if error.Some? {
        return Err((error.value, false));
      }
      error := HandOver(connection, rfc822);
      result := if error.None? then Ok(()) else Err((error.value, true));
    }

    /** For every server: the body is handed over at most once, success means exactly one accepted copy, and an error
        leaves no connection in the pool. A panic does not get as far as to empty it. */
    method Send(envelope: Envelope, rfc822: Bytes) returns (result: Result<(), SmtpError>)
      modifies this, network
      ensures old(network.trace) <= network.trace
      ensures !(ValidAddress(envelope.sender) && forall r :: r in envelope.recipients ==> ValidAddress(r)) ==>
        result == Err(InvalidAddress) && network.trace == old(network.trace) && pooled == old(pooled)
      ensures old(network.Seen().begun) <= network.Seen().begun <= old(network.Seen().begun) + 1
      ensures network.Seen().accepted - old(network.Seen().accepted) <= network.Seen().begun - old(network.Seen().begun)
      ensures result.Ok? ==>
        network.Seen().begun == old(network.Seen().begun) + 1
        && network.Seen().accepted == old(network.Seen().accepted) + 1 && pooled.Some?
        && exists before :: network.Seen().said == before + Dialogue(envelope, rfc822)
      ensures result.Err? && result.error !in {InvalidAddress, Panicked} ==> pooled.None?
      ensures result == Err(Panicked) ==> pooled.Some? && EndsSplit(network.trace, pooled.value)
    {
      if !ValidAddress(envelope.sender) {
        return Err(InvalidAddress);
      }
      for i := 0 to |envelope.recipients|
        invariant forall k :: 0 <= k < i ==> ValidAddress(envelope.recipients[k])
        invariant network.trace == old(network.trace) && pooled == old(pooled)
      {
        if !ValidAddress(envelope.recipients[i]) {
          return Err(InvalidAddress);
        }
      }
      for attempt := 0 to 2
        invariant attempt <= 1 && (attempt == 1 ==> pooled.None?)
        invariant old(network.trace) <= network.trace
        invariant network.Seen().begun == old(network.Seen().begun)
        invariant network.Seen().accepted == old(network.Seen().accepted)
      {
        var reused := pooled.Some?;
        if pooled.None? {
          var made := network.Connect();
          if made.None? {
            return Err(Failure);
          }
          pooled := made;
        }
        var sent := Transaction(pooled.value, envelope, rfc822);
        if sent.Ok? {
          return Ok(());
        }
        if sent.error.0.Panicked? {
          return Err(Panicked);
        }
        pooled := None;
        if sent.error.1 || !reused || attempt == 1 {
          return Err(sent.error.0);
        }
      }
      // the loop never falls through
      assert false;
    }
  }
}
