/** The pooled SMTP connection over many sends, any of which may be dropped halfway: whose reply a send reads, and whose
    message the server takes. A reply that is not the expected one, or none, closes the connection, which ends its
    history. */
module SmtpPool {

  /** A reply, and the number of the line or message it answers. */
  datatype Reply = Reply(code: nat, line: nat)

  /** What the server has been sent, and which answers are still to be read. While it takes a message, whatever comes
      before the end of that message is text of it. */
  datatype Link = Link(
    lines: nat,            // lines and messages written so far
    taking: bool,          // the server has answered DATA with 354 and waits for the end of the message
    open: bool,            // a MAIL was accepted, and no message has ended since
    replies: seq<Reply>)   // answered, but not read

  const FRESH := Link(0, false, false, [])

  predicate Clean(l: Link) { !l.taking && l.replies == [] }

  datatype Item = Mail | Rcpt | Data | Message

  /** The k-th thing a send with n recipients writes. */
  function ItemAt(n: nat, k: nat): Item
  {
    if k == 0 then Mail else if k <= n then Rcpt else if k == n + 1 then Data else Message
  }

  function ExpectedAt(n: nat, k: nat): nat { if ItemAt(n, k).Data? then 354 else 250 }

  /** Section 4.3.2 of RFC 5321: 354 answers DATA only. */
  predicate Conforms(item: Item, code: nat) { code == 354 ==> item.Data? }

  /** Section 4.1.4 of RFC 5321: no second MAIL while a transaction is open. */
  predicate Strict(l: Link, item: Item, code: nat) { item.Mail? && l.open && !l.taking ==> code != 250 }

  /** The server answers at once what it does not take as text. */
  function Written(l: Link, item: Item, code: nat): Link
  {
    if l.taking && !item.Message? then l.(lines := l.lines + 1)
    else
      var open := if item.Mail? then l.open || code == 250 else l.open && !item.Message?;
      Link(l.lines + 1, item.Data? && code == 354, open, l.replies + [Reply(code, l.lines)])
  }

  datatype Client = Idle | Sending(recipients: nat, done: nat, waiting: bool)

  /** Of the send that is under way, or was last: the link it began on, whether every reply it read answered what it had
      just written, and the line answered by the 354 on which it wrote its message. */
  datatype State = State(link: Link, client: Client, began: Link, own: bool, goAhead: nat)

  const INITIAL := State(FRESH, Idle, FRESH, true, 0)

  datatype Move = Begin(recipients: nat) | Write(code: nat) | Read | Finish | Drop

  predicate Enabled(s: State, move: Move)
  {
    match move
    case Begin(_) => s.client.Idle?
    case Write(code) =>
      s.client.Sending? && !s.client.waiting && s.client.done < s.client.recipients + 3
      && Conforms(ItemAt(s.client.recipients, s.client.done), code)
    case Read =>
      s.client.Sending? && s.client.waiting && s.link.replies != []
      && s.link.replies[0].code == ExpectedAt(s.client.recipients, s.client.done)
    case Finish => s.client.Sending? && s.client.done == s.client.recipients + 3
    case Drop => s.client.Sending?
  }

  function Step(s: State, move: Move): State
    requires Enabled(s, move)
  {
    match move
    case Begin(n) => State(s.link, Sending(n, 0, false), s.link, true, 0)
    case Write(code) =>
      s.(link := Written(s.link, ItemAt(s.client.recipients, s.client.done), code),
         client := s.client.(waiting := true))
    case Read =>
      var reply := s.link.replies[0];
      s.(link := s.link.(replies := s.link.replies[1..]),
         client := Sending(s.client.recipients, s.client.done + 1, false),
         own := s.own && reply.line + 1 == s.link.lines,
         goAhead := if reply.code == 354 then reply.line else s.goAhead)
    case Finish => s.(client := Idle)
    case Drop => s.(client := Idle)
  }

  // ----- The invariant -----

  /** At most the last unread reply is a 354, and then the server takes the message; while it takes one, nothing else
      can come after it. */
  predicate LinkSound(l: Link)
  {
    && (forall k :: 0 <= k < |l.replies| ==> l.replies[k].line < l.lines)
    && (forall k :: 0 <= k < |l.replies| && l.replies[k].code == 354 ==> k == |l.replies| - 1 && l.taking)
    && (l.taking && l.replies != [] ==> l.replies[|l.replies| - 1].code == 354)
  }

  function Count(waiting: bool): nat { if waiting then 1 else 0 }

  /** From the 354 on: the server takes the message, answers its end, and nothing is left. */
  predicate Concluding(s: State)
    requires s.client.Sending?
  {
    if s.client.done == s.client.recipients + 2 && !s.client.waiting then s.link.taking && s.link.replies == []
    else !s.link.taking && |s.link.replies| == Count(s.client.waiting)
         && (s.client.waiting ==> s.link.replies[0].line + 1 == s.link.lines)
  }

  predicate BeforeMessage(c: Client) { c.Sending? && c.done <= c.recipients + 1 }

  /** A send that began while the server was taking an earlier message. */
  predicate Astray(s: State)
    requires s.client.Sending?
  {
    && (s.client.done > 0 ==> !s.own)
    && (if BeforeMessage(s.client) then
          s.link.taking && |s.link.replies| + s.client.done == |s.began.replies|
          && forall k :: 0 <= k < |s.link.replies| ==> s.link.replies[k].line < s.began.lines
        else s.goAhead < s.began.lines && Concluding(s))
  }

  /** A send that began with nothing outstanding. */
  predicate InStep(s: State)
    requires s.client.Sending?
  {
    && s.own
    && (if BeforeMessage(s.client) then
          |s.link.replies| == Count(s.client.waiting)
          && (s.client.waiting ==> s.link.replies[0].line + 1 == s.link.lines)
          && (s.link.taking ==> s.client.waiting && s.client.done == s.client.recipients + 1)
        else s.goAhead == s.began.lines + s.client.recipients + 1 && Concluding(s))
  }

  /** A send that began with replies to earlier lines outstanding: it never gets to its message. */
  predicate Late(s: State)
    requires s.client.Sending?
  {
    && s.began.replies != [] && BeforeMessage(s.client)
    && |s.link.replies| == |s.began.replies| + Count(s.client.waiting)
    && (s.client.done == 0 ==> s.link.replies[0].line < s.began.lines)
    && (s.client.done > 0 ==> !s.own)
    && (s.link.taking ==> s.client.waiting && s.client.done == s.client.recipients + 1)
  }

  predicate SendSound(s: State)
    requires s.client.Sending?
  {
    && s.link.lines == s.began.lines + s.client.done + Count(s.client.waiting)
    && s.client.done <= s.client.recipients + 3 && (s.client.done == s.client.recipients + 3 ==> !s.client.waiting)
    && (if s.began.taking then Astray(s) else if s.began.replies == [] then InStep(s) else Late(s))
  }

  predicate Inv(s: State) { LinkSound(s.link) && (s.client.Sending? ==> SendSound(s)) }

  lemma WriteKeepsInv(s: State, code: nat)
    requires Inv(s) && Enabled(s, Write(code))
    ensures Inv(Step(s, Write(code)))
  {
  }

  lemma ReadKeepsInv(s: State)
    requires Inv(s) && Enabled(s, Read)
    ensures Inv(Step(s, Read))
  {
  }

  lemma StepKeepsInv(s: State, move: Move)
    requires Inv(s) && Enabled(s, move)
    ensures Inv(Step(s, move))
  {
    match move
    case Write(code) => WriteKeepsInv(s, code);
    case Read => ReadKeepsInv(s);
    case _ =>
  }

  // ----- Runs -----

  predicate StepAt(run: seq<State>, moves: seq<Move>, i: nat)
    requires |run| == |moves| + 1 && i < |moves|
  {
    Enabled(run[i], moves[i]) && run[i + 1] == Step(run[i], moves[i])
  }

  predicate IsRun(run: seq<State>, moves: seq<Move>)
  {
    |run| == |moves| + 1 && run[0] == INITIAL && forall i :: 0 <= i < |moves| ==> StepAt(run, moves, i)
  }

  lemma {:induction false} InvHolds(run: seq<State>, moves: seq<Move>, k: nat)
    requires IsRun(run, moves) && k < |run|
    ensures Inv(run[k])
  {
    if k > 0 {
      InvHolds(run, moves, k - 1);
      assert StepAt(run, moves, k - 1);
      StepKeepsInv(run[k - 1], moves[k - 1]);
    }
  }

  /** The send has read every reply it waited for, and reports success. */
  predicate Succeeds(s: State) { s.client.Sending? && s.client.done == s.client.recipients + 3 }

  /** For every history of sends, dropped anywhere, on one connection: a send that succeeds read the replies to its own
      commands and message if and only if the server was not in the middle of a message when it began. Otherwise its
      message ended one that an earlier, dropped send had announced. Either way nothing is outstanding afterwards. */
  lemma SuccessIsOwnExactly(run: seq<State>, moves: seq<Move>, k: nat)
    requires IsRun(run, moves) && k < |run| && Succeeds(run[k])
    ensures var s := run[k];
      && (s.own <==> !s.began.taking)
      && (s.own ==> Clean(s.began) && s.goAhead == s.began.lines + s.client.recipients + 1)
      && (!s.own ==> s.goAhead < s.began.lines)
      && Clean(s.link)
  {
    InvHolds(run, moves, k);
  }

  /** A send that began with nothing outstanding leaves nothing when it is dropped, if and only if it is not waiting for
      a reply and has not been told to go ahead with its message. */
  lemma DropLeavesCleanExactly(run: seq<State>, moves: seq<Move>, k: nat)
    requires IsRun(run, moves) && k < |run| && run[k].client.Sending? && Clean(run[k].began)
    ensures Clean(Step(run[k], Drop).link) <==>
      !run[k].client.waiting && run[k].client.done != run[k].client.recipients + 2
  {
    InvHolds(run, moves, k);
  }

  predicate Harmless(s: State, move: Move)
  {
    move.Drop? && s.client.Sending? ==> !s.client.waiting && s.client.done != s.client.recipients + 2
  }

  predicate HarmlessAt(run: seq<State>, moves: seq<Move>, i: nat)
    requires |run| == |moves| + 1 && i < |moves|
  {
    Harmless(run[i], moves[i])
  }

  predicate Fair(s: State) { if s.client.Idle? then Clean(s.link) else Clean(s.began) }

  lemma {:induction false} HarmlessStaysFair(run: seq<State>, moves: seq<Move>, k: nat)
    requires IsRun(run, moves) && k < |run| && forall i :: 0 <= i < k ==> HarmlessAt(run, moves, i)
    ensures Fair(run[k])
  {
    if k > 0 {
      HarmlessStaysFair(run, moves, k - 1);
      InvHolds(run, moves, k - 1);
      assert StepAt(run, moves, k - 1) && HarmlessAt(run, moves, k - 1);
    }
  }

  /** So while no send has been dropped at such a point, every success is the send's own. */
  lemma HarmlessDropsMixNothing(run: seq<State>, moves: seq<Move>, k: nat)
    requires IsRun(run, moves) && k < |run| && Succeeds(run[k])
    requires forall i :: 0 <= i < k ==> HarmlessAt(run, moves, i)
    ensures run[k].own
  {
    HarmlessStaysFair(run, moves, k);
    SuccessIsOwnExactly(run, moves, k);
  }

  // ----- Servers that refuse a second MAIL -----

  /** The server keeps to that rule, and the sends have recipients. */
  predicate Proper(s: State, move: Move)
  {
    match move
    case Begin(n) => n > 0
    case Write(code) => s.client.Sending? ==> Strict(s.link, ItemAt(s.client.recipients, s.client.done), code)
    case _ => true
  }

  predicate ProperAt(run: seq<State>, moves: seq<Move>, i: nat)
    requires |run| == |moves| + 1 && i < |moves|
  {
    Proper(run[i], moves[i])
  }

  /** A reply that no send goes on from is still to be read. */
  predicate Doomed(l: Link) { exists k :: 0 <= k < |l.replies| && l.replies[k].code != 250 && l.replies[k].code != 354 }

  function MostReplies(l: Link): nat { if l.taking || l.open then 2 else 1 }

  /** Between two sends at most two replies are outstanding, one when no transaction is open. */
  predicate Short(s: State)
  {
    if s.client.Idle? then |s.link.replies| <= MostReplies(s.link)
    else
      && s.client.recipients > 0 && |s.began.replies| <= MostReplies(s.began)
      && (s.began.taking ==> s.client.done == 0 || (s.client.done == 1 && |s.link.replies| <= 1))
      && (!s.began.taking && BeforeMessage(s.client) ==>
            if s.client.done == 0 && !s.client.waiting then s.link == s.began else !s.began.open && s.link.open)
      && (!BeforeMessage(s.client) && s.client.done > s.client.recipients + 1 && !s.link.taking ==> !s.link.open)
  }

  predicate StrictInv(s: State) { Doomed(s.link) || Short(s) }

  lemma DoomedStays(s: State, move: Move)
    requires Inv(s) && Enabled(s, move) && Doomed(s.link)
    ensures Doomed(Step(s, move).link)
  {
    var k :| 0 <= k < |s.link.replies| && s.link.replies[k].code != 250 && s.link.replies[k].code != 354;
    if move.Read? {
      assert s.link.replies[1..][k - 1] == s.link.replies[k];
    } else {
      assert Step(s, move).link.replies[k] == s.link.replies[k];
    }
  }

  lemma WriteKeepsShort(s: State, code: nat)
    requires Inv(s) && Enabled(s, Write(code)) && Proper(s, Write(code)) && Short(s)
    ensures StrictInv(Step(s, Write(code)))
  {
    var t := Step(s, Write(code));
    if t.link.replies != s.link.replies {
      assert t.link.replies[|s.link.replies|].code == code;
    }
  }

  lemma ReadKeepsShort(s: State)
    requires Inv(s) && Enabled(s, Read) && Short(s)
    ensures StrictInv(Step(s, Read))
  {
  }

  lemma StepKeepsStrict(s: State, move: Move)
    requires Inv(s) && Enabled(s, move) && Proper(s, move) && StrictInv(s)
    ensures StrictInv(Step(s, move))
  {
    if Doomed(s.link) {
      DoomedStays(s, move);
    } else {
      match move
      case Write(code) => WriteKeepsShort(s, code);
      case Read => ReadKeepsShort(s);
      case _ =>
    }
  }

  lemma {:induction false} StrictHolds(run: seq<State>, moves: seq<Move>, k: nat)
    requires IsRun(run, moves) && k < |run| && forall i :: 0 <= i < k ==> ProperAt(run, moves, i)
    ensures StrictInv(run[k])
  {
    if k > 0 {
      StrictHolds(run, moves, k - 1);
      InvHolds(run, moves, k - 1);
      assert StepAt(run, moves, k - 1) && ProperAt(run, moves, k - 1);
      StepKeepsStrict(run[k - 1], moves[k - 1]);
    }
  }

  /** With a server that refuses a second MAIL and with at least one recipient each, every success is the send's own,
      wherever earlier sends were dropped. */
  lemma ProperSuccessIsOwn(run: seq<State>, moves: seq<Move>, k: nat)
    requires IsRun(run, moves) && k < |run| && Succeeds(run[k])
    requires forall i :: 0 <= i < k ==> ProperAt(run, moves, i)
    ensures run[k].own
  {
    SuccessIsOwnExactly(run, moves, k);
    StrictHolds(run, moves, k);
  }

  // ----- Neither can be left out -----

  ghost predicate Reachable(s: State, strict: bool)
  {
    exists run: seq<State>, moves: seq<Move> ::
      IsRun(run, moves) && run[|moves|] == s
      && (strict ==> forall i :: 0 <= i < |moves| && moves[i].Write? ==> ProperAt(run, moves, i))
  }

  lemma Extend(s: State, strict: bool, move: Move) returns (t: State)
    requires Reachable(s, strict) && Enabled(s, move) && (strict && move.Write? ==> Proper(s, move))
    ensures t == Step(s, move) && Reachable(t, strict)
  {
    var run: seq<State>, moves: seq<Move> :| IsRun(run, moves) && run[|moves|] == s
      && (strict ==> forall i :: 0 <= i < |moves| && moves[i].Write? ==> ProperAt(run, moves, i));
    t := Step(s, move);
    var run', moves' := run + [t], moves + [move];
    forall i | 0 <= i < |moves'|
      ensures StepAt(run', moves', i) && (strict && moves'[i].Write? ==> ProperAt(run', moves', i))
    {
      if i < |moves| {
        assert StepAt(run, moves, i) && (strict && moves[i].Write? ==> ProperAt(run, moves, i));
      }
    }
    assert IsRun(run', moves') && run'[|moves'|] == t;
  }

  /** One command and its reply, which is the oldest unread one. */
  lemma Exchanges(s: State, strict: bool, code: nat) returns (t: State)
    requires Reachable(s, strict) && Enabled(s, Write(code)) && (strict ==> Proper(s, Write(code)))
    requires Enabled(Step(s, Write(code)), Read)
    ensures t == Step(Step(s, Write(code)), Read) && Reachable(t, strict)
  {
    var u := Extend(s, strict, Write(code));
    t := Extend(u, strict, Read);
  }

  /** A send of n recipients writes its next command and is dropped before it reads the reply. */
  lemma WritesAndDrops(s: State, strict: bool, code: nat) returns (t: State)
    requires Reachable(s, strict) && Enabled(s, Write(code)) && (strict ==> Proper(s, Write(code)))
    ensures t == Step(Step(s, Write(code)), Drop) && Reachable(t, strict)
  {
    var u := Extend(s, strict, Write(code));
    t := Extend(u, strict, Drop);
  }

  lemma Starts(strict: bool)
    ensures Reachable(INITIAL, strict)
  {
    assert IsRun([INITIAL], []) && [INITIAL][0] == INITIAL;
  }

  /** A send without recipients gets all it waits for out of a 250 and a 354 that earlier sends left. */
  lemma TakesOver(s: State, strict: bool, a: nat, b: nat) returns (t: State)
    requires Reachable(s, strict) && s.client.Idle? && s.link.taking && s.link.replies == [Reply(250, a), Reply(354, b)]
    requires a < b < s.link.lines
    ensures Reachable(t, strict) && Succeeds(t) && t.client.recipients == 0 && !t.own && t.goAhead == b
  {
    var s1 := Extend(s, strict, Begin(0));
    var s2 := Exchanges(s1, strict, 250);
    var s3 := Exchanges(s2, strict, 250);
    t := Exchanges(s3, strict, 250);
  }

  /** A send to one recipient is dropped when all of its message is written. */
  lemma DropsAfterMessage() returns (t: State)
    ensures Reachable(t, true) && t.client.Idle? && t.link == Link(4, false, false, [Reply(250, 3)])
  {
    Starts(true);
    var s1 := Extend(INITIAL, true, Begin(1));
    var s2 := Exchanges(s1, true, 250);
    var s3 := Exchanges(s2, true, 250);
    assert s3.link == Link(2, false, true, []);
    var s4 := Exchanges(s3, true, 354);
    assert s4.link == Link(3, true, true, []);
    t := WritesAndDrops(s4, true, 250);
  }

  /** The next one takes the reply to that message for that to its MAIL, and is dropped when its DATA is written. */
  lemma DropsAfterData(s: State) returns (t: State)
    requires Reachable(s, true) && s.client.Idle? && s.link == Link(4, false, false, [Reply(250, 3)])
    ensures Reachable(t, true) && t.client.Idle? && t.link == Link(7, true, true, [Reply(250, 5), Reply(354, 6)])
  {
    var s1 := Extend(s, true, Begin(1));
    var s2 := Exchanges(s1, true, 250);
    var s3 := Exchanges(s2, true, 250);
    t := WritesAndDrops(s3, true, 354);
  }

  /** With a server that keeps to the rule: a send is dropped after its message, the next one after its DATA, and a send
      without recipients then ends the message of the second and succeeds. */
  lemma NoRecipientsMix() returns (t: State)
    ensures Reachable(t, true) && Succeeds(t) && t.client.recipients == 0 && !t.own
  {
    var s := DropsAfterMessage();
    var u := DropsAfterData(s);
    t := TakesOver(u, true, 5, 6);
  }

  lemma DropsAfterMail() returns (t: State)
    ensures Reachable(t, false) && t.client.Idle? && t.link == Link(1, false, true, [Reply(250, 0)])
  {
    Starts(false);
    var s := Extend(INITIAL, false, Begin(1));
    t := WritesAndDrops(s, false, 250);
  }

  lemma DropsAfterRcpt(s: State) returns (t: State)
    requires Reachable(s, false) && s.client.Idle? && s.link == Link(1, false, true, [Reply(250, 0)])
    ensures Reachable(t, false) && t.client.Idle?
    ensures t.link == Link(3, false, true, [Reply(250, 1), Reply(250, 2)])
  {
    var s1 := Extend(s, false, Begin(1));
    var s2 := Exchanges(s1, false, 250);
    t := WritesAndDrops(s2, false, 250);
  }

  lemma ThirdGetsToData(s: State) returns (t: State)
    requires Reachable(s, false) && s.client.Idle? && s.link == Link(3, false, true, [Reply(250, 1), Reply(250, 2)])
    ensures Reachable(t, false) && t.client == Sending(1, 2, false)
    ensures t.link == Link(5, false, true, [Reply(250, 3), Reply(250, 4)])
  {
    var s1 := Extend(s, false, Begin(1));
    var s2 := Exchanges(s1, false, 250);
    assert s2.link == Link(4, false, true, [Reply(250, 2), Reply(250, 3)]);
    t := Exchanges(s2, false, 250);
  }

  lemma ThirdDropsAfterData(s: State) returns (t: State)
    requires Reachable(s, false) && s.client == Sending(1, 2, false)
    requires s.link == Link(5, false, true, [Reply(250, 3), Reply(250, 4)])
    ensures Reachable(t, false) && t.client.Idle?
    ensures t.link == Link(6, true, true, [Reply(250, 3), Reply(250, 4), Reply(354, 5)])
  {
    t := WritesAndDrops(s, false, 354);
  }

  /** With a server that accepts a second MAIL: sends with one recipient each are dropped after MAIL, after RCPT and
      after DATA, and the fourth ends the message of the third and succeeds. */
  lemma SecondMailMixes() returns (t: State)
    ensures Reachable(t, false) && Succeeds(t) && t.client.recipients == 1 && !t.own
  {
    var s1 := DropsAfterMail();
    var s2 := DropsAfterRcpt(s1);
    var s3 := ThirdGetsToData(s2);
    var s4 := ThirdDropsAfterData(s3);
    t := FourthSucceeds(s4);
  }

  lemma FourthSucceeds(s: State) returns (t: State)
    requires Reachable(s, false) && s.client.Idle?
    requires s.link == Link(6, true, true, [Reply(250, 3), Reply(250, 4), Reply(354, 5)])
    ensures Reachable(t, false) && Succeeds(t) && t.client.recipients == 1 && !t.own
  {
    var s1 := Extend(s, false, Begin(1));
    var s2 := Exchanges(s1, false, 250);
    var s3 := Exchanges(s2, false, 250);
    var s4 := Exchanges(s3, false, 250);
    t := Exchanges(s4, false, 250);
  }
}
