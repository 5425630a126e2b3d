/** SMTP transparency: what the transport writes after DATA, and what a receiver makes of it
    (section 4.5.2 of RFC 5321). */
module DotStuffing {
  import opened Utf8

  const CR: byte := 13
  const LF: byte := 10
  const DOT: byte := 46

  const END_OF_DATA: Bytes := [CR, LF, DOT, CR, LF]

  predicate LineStart(before: Bytes) { before == [] || before[|before| - 1] == LF }

  /** A dot is doubled at the start and after every LF. */
  function Escaped(message: Bytes): Bytes
  {
    if message == [] then []
    else
      var before, last := message[..|message| - 1], message[|message| - 1];
      Escaped(before) + if LineStart(before) && last == DOT then [DOT, DOT] else [last]
  }

  predicate EndsWithCrlf(data: Bytes) { |data| >= 2 && data[|data| - 2] == CR && data[|data| - 1] == LF }

  function TrimNewlines(data: Bytes): Bytes
  {
    if EndsWithCrlf(data) then TrimNewlines(data[..|data| - 2])
    else if data != [] && data[|data| - 1] == LF then TrimNewlines(data[..|data| - 1])
    else data
  }

  /** The bytes between the reply to DATA and the end-of-data mark. */
  function Stuffed(message: Bytes): Bytes { TrimNewlines(Escaped(message)) }

  method DotStuff(message: Bytes) returns (output: Bytes)
    ensures output == Stuffed(message)
  {
    output := [];
    var lineStart := true;
    for i := 0 to |message|
      invariant output == Escaped(message[..i]) && lineStart == LineStart(message[..i])
    {
      assert message[..i + 1][..i] == message[..i];
      if lineStart && message[i] == DOT {
        output := output + [DOT];
      }
      output := output + [message[i]];
      lineStart := message[i] == LF;
    }
    assert message[..|message|] == message;
    while EndsWithCrlf(output) || (output != [] && output[|output| - 1] == LF)
      invariant TrimNewlines(output) == Stuffed(message)
      decreases |output|
    {
      if EndsWithCrlf(output) {
        output := output[..|output| - 2];
      } else {
        output := output[..|output| - 1];
      }
    }
  }

  // ----- The end-of-data mark -----

  predicate MarkAt(wire: Bytes, p: nat) { p + 5 <= |wire| && wire[p..p + 5] == END_OF_DATA }

  predicate StartsLine(data: Bytes, i: nat) { i < |data| && (i == 0 || data[i - 1] == LF) }

  /** A dot that starts a line stands before another dot. */
  predicate DotsDoubled(data: Bytes)
  {
    forall i :: 0 <= i < |data| && StartsLine(data, i) && data[i] == DOT ==> i + 1 < |data| && data[i + 1] == DOT
  }

  lemma EscapedSnoc(before: Bytes, last: byte)
    ensures Escaped(before + [last]) ==
      Escaped(before) + if LineStart(before) && last == DOT then [DOT, DOT] else [last]
  {
    assert (before + [last])[..|before|] == before;
  }

  lemma {:induction false} EscapedShape(message: Bytes)
    ensures DotsDoubled(Escaped(message))
    ensures message == [] <==> Escaped(message) == []
    ensures message != [] ==> Escaped(message)[|Escaped(message)| - 1] == message[|message| - 1]
  {
    if message != [] {
      var before, last := message[..|message| - 1], message[|message| - 1];
      EscapedShape(before);
      var escaped, longer := Escaped(before), Escaped(message);
      forall i | 0 <= i < |longer| && StartsLine(longer, i) && longer[i] == DOT
        ensures i + 1 < |longer| && longer[i + 1] == DOT
      {
        if i < |escaped| {
          assert StartsLine(escaped, i) && escaped[i] == DOT;
          assert longer[i + 1] == escaped[i + 1];
        } else {
          assert i == |escaped| ==> LineStart(before);
        }
      }
    }
  }

  lemma {:induction false} TrimShape(data: Bytes)
    ensures TrimNewlines(data) <= data
    ensures forall i :: |TrimNewlines(data)| <= i < |data| ==> data[i] in {CR, LF}
    ensures LineStart(TrimNewlines(data)) ==> TrimNewlines(data) == []
  {
    if EndsWithCrlf(data) {
      TrimShape(data[..|data| - 2]);
    } else if data != [] && data[|data| - 1] == LF {
      TrimShape(data[..|data| - 1]);
    }
  }

  /** For every message the only end-of-data mark on the wire is the one the transport appends: a receiver reads
      exactly the stuffed bytes, whatever the message holds. */
  lemma MarkIsFinal(message: Bytes, p: nat)
    ensures var wire := Stuffed(message) + END_OF_DATA;
      && (MarkAt(wire, p) <==> p == |Stuffed(message)|)
      && !(wire[..3] == [DOT, CR, LF])
  {
    var data := Escaped(message);
    var stuffed := Stuffed(message);
    var wire := stuffed + END_OF_DATA;
    EscapedShape(message);
    TrimShape(data);
    assert DotsDoubled(stuffed) by {
      forall i | 0 <= i < |stuffed| && StartsLine(stuffed, i) && stuffed[i] == DOT
        ensures i + 1 < |stuffed| && stuffed[i + 1] == DOT
      {
        assert StartsLine(data, i) && data[i] == DOT && data[i + 1] == DOT;
      }
    }
    assert forall i :: 0 <= i < |stuffed| ==> wire[i] == stuffed[i];
    if MarkAt(wire, p) {
      assert wire[p + 1] == wire[p..p + 5][1] == LF;
      assert wire[p + 2] == wire[p..p + 5][2] == DOT;
      assert wire[p + 3] == wire[p..p + 5][3] == CR;
    }
    assert wire[|stuffed|..|stuffed| + 5] == END_OF_DATA;
    assert wire[..3][0] == wire[0] && wire[..3][1] == wire[1];
    assert stuffed != [] && stuffed[0] == DOT ==> StartsLine(stuffed, 0) && stuffed[1] == DOT;
  }

  // ----- Transparency -----

  predicate WireLineStart(before: Bytes) { before == [] || EndsWithCrlf(before) }

  /** A receiver ends lines at CRLF and deletes the first dot of a line. */
  function Unstuffed(data: Bytes): Bytes
  {
    if data == [] then []
    else
      var before, last := data[..|data| - 1], data[|data| - 1];
      Unstuffed(before) + if WireLineStart(before) && last == DOT then [] else [last]
  }

  /** An LF without a CR before it, and a dot right after it. */
  predicate BareDotAt(message: Bytes, i: nat)
  {
    i + 1 < |message| && message[i] == LF && message[i + 1] == DOT && (i == 0 || message[i - 1] != CR)
  }

  ghost predicate BareDot(message: Bytes) { exists i: nat :: BareDotAt(message, i) }

  /** A dot the sender doubles where the receiver sees no start of a line. */
  predicate Doubled(before: Bytes, last: byte) { last == DOT && LineStart(before) && !WireLineStart(before) }

  function BareDots(message: Bytes): nat
  {
    if message == [] then 0
    else
      var before, last := message[..|message| - 1], message[|message| - 1];
      BareDots(before) + if Doubled(before, last) then 1 else 0
  }

  lemma {:induction false} BareDotsCounts(message: Bytes)
    ensures BareDots(message) > 0 <==> BareDot(message)
  {
    if message != [] {
      var before := message[..|message| - 1];
      BareDotsCounts(before);
      assert Doubled(before, message[|message| - 1]) <==> |message| >= 2 && BareDotAt(message, |message| - 2);
      if BareDot(before) {
        var i: nat :| BareDotAt(before, i);
        assert BareDotAt(message, i);
      }
      if BareDot(message) {
        var i: nat :| BareDotAt(message, i);
        assert i < |message| - 2 ==> BareDotAt(before, i);
      }
    }
  }

  lemma EscapedKeepsCrlf(message: Bytes)
    ensures EndsWithCrlf(Escaped(message)) <==> EndsWithCrlf(message)
  {
    if message != [] {
      EscapedShape(message);
      EscapedShape(message[..|message| - 1]);
    }
  }

  lemma UnstuffedSnoc(before: Bytes, last: byte)
    ensures Unstuffed(before + [last]) ==
      Unstuffed(before) + if WireLineStart(before) && last == DOT then [] else [last]
  {
    assert (before + [last])[..|before|] == before;
  }

  lemma UnstuffedTwo(data: Bytes, x: byte, y: byte)
    requires x == DOT <==> y == DOT
    ensures Unstuffed(data + [x, y]) ==
      if x != DOT then Unstuffed(data) + [x, y]
      else if WireLineStart(data) then Unstuffed(data) + [DOT]
      else Unstuffed(data) + [DOT, DOT]
  {
    assert data + [x, y] == (data + [x]) + [y];
    UnstuffedSnoc(data + [x], y);
    UnstuffedSnoc(data, x);
  }

  lemma UnstuffedDot(before: Bytes)
    requires LineStart(before)
    ensures Unstuffed(Escaped(before + [DOT])) == Unstuffed(Escaped(before))
      + if Doubled(before, DOT) then [DOT, DOT] else [DOT]
  {
    var escaped := Escaped(before);
    EscapedSnoc(before, DOT);
    EscapedShape(before);
    EscapedKeepsCrlf(before);
    assert WireLineStart(escaped) <==> WireLineStart(before);
    UnstuffedTwo(escaped, DOT, DOT);
  }

  lemma UnstuffedOther(before: Bytes, last: byte)
    requires !LineStart(before) || last != DOT
    ensures Unstuffed(Escaped(before + [last])) == Unstuffed(Escaped(before)) + [last]
  {
    EscapedSnoc(before, last);
    EscapedShape(before);
    EscapedKeepsCrlf(before);
    UnstuffedSnoc(Escaped(before), last);
  }

  /** Every dot after a bare LF reaches the receiver twice, everything else as it was. */
  lemma {:induction false} UnstuffedEscaped(message: Bytes)
    ensures |Unstuffed(Escaped(message))| == |message| + BareDots(message)
    ensures BareDots(message) == 0 ==> Unstuffed(Escaped(message)) == message
  {
    if message != [] {
      var before, last := message[..|message| - 1], message[|message| - 1];
      assert message == before + [last];
      UnstuffedEscaped(before);
      if LineStart(before) && last == DOT {
        UnstuffedDot(before);
      } else {
        UnstuffedOther(before, last);
      }
    }
  }

  lemma TrimSnoc(before: Bytes)
    ensures EndsWithCrlf(before + [LF]) ==> TrimNewlines(before + [LF]) == TrimNewlines(before[..|before| - 1])
    ensures !EndsWithCrlf(before + [LF]) ==> TrimNewlines(before + [LF]) == TrimNewlines(before)
  {
    assert (before + [LF])[..|before|] == before;
    if EndsWithCrlf(before + [LF]) {
      assert (before + [LF])[..|before| - 1] == before[..|before| - 1];
    }
  }

  lemma {:induction false} TrimCommutes(message: Bytes)
    ensures TrimNewlines(Escaped(message)) == Escaped(TrimNewlines(message))
  {
    EscapedShape(message);
    if message != [] && message[|message| - 1] == LF {
      var before := message[..|message| - 1];
      assert message == before + [LF];
      EscapedSnoc(before, LF);
      TrimSnoc(before);
      TrimSnoc(Escaped(before));
      EscapedKeepsCrlf(message);
      if EndsWithCrlf(message) {
        var shorter := before[..|before| - 1];
        assert before == shorter + [CR];
        EscapedSnoc(shorter, CR);
        assert Escaped(before)[..|Escaped(before)| - 1] == Escaped(shorter);
        TrimCommutes(shorter);
      } else {
        TrimCommutes(before);
      }
    }
  }

  lemma TrimKeepsBareDot(message: Bytes)
    ensures BareDot(TrimNewlines(message)) <==> BareDot(message)
  {
    TrimShape(message);
    var trimmed := TrimNewlines(message);
    if BareDot(message) {
      var i: nat :| BareDotAt(message, i);
      assert BareDotAt(trimmed, i);
    }
    if BareDot(trimmed) {
      var i: nat :| BareDotAt(trimmed, i);
      assert BareDotAt(message, i);
    }
  }

  /** The receiver gets the message without its trailing newlines plus one CRLF if and only if no dot of the message
      directly follows an LF that has no CR before it. */
  lemma TransparentExactly(message: Bytes)
    ensures Unstuffed(Stuffed(message) + [CR, LF]) == TrimNewlines(message) + [CR, LF] <==> !BareDot(message)
  {
    var trimmed := TrimNewlines(message);
    TrimCommutes(message);
    TrimKeepsBareDot(message);
    BareDotsCounts(trimmed);
    UnstuffedEscaped(trimmed);
    UnstuffedTwo(Stuffed(message), CR, LF);
    SameEnding(Unstuffed(Stuffed(message)), trimmed, [CR, LF]);
  }

  lemma SameEnding(a: Bytes, b: Bytes, end: Bytes)
    ensures a + end == b + end <==> a == b
  {
    if a + end == b + end {
      assert |a| == |b|;
      assert a == (a + end)[..|a|] == (b + end)[..|b|] == b;
    }
  }

  /** In particular for messages whose every LF follows a CR. */
  lemma CrlfMessagesAreTransparent(message: Bytes)
    requires forall i :: 0 <= i < |message| && message[i] == LF ==> i > 0 && message[i - 1] == CR
    ensures Unstuffed(Stuffed(message) + [CR, LF]) == TrimNewlines(message) + [CR, LF]
  {
    TransparentExactly(message);
  }

  /** A dot after a bare LF arrives twice. */
  lemma BareDotArrivesTwice()
    ensures Unstuffed(Stuffed([LF, DOT]) + [CR, LF]) == [LF, DOT, DOT, CR, LF]
    ensures TrimNewlines([LF, DOT]) == [LF, DOT]
  {
    var message, wire := [LF, DOT], [LF, DOT, DOT, CR, LF];
    assert message[..1] == [LF] && [LF][..0] == [];
    assert Escaped([LF]) == [LF] && Stuffed(message) == [LF, DOT, DOT];
    UnstuffedSnoc([], LF);
    assert [] + [LF] == [LF];
    UnstuffedTwo([LF], DOT, DOT);
    assert [LF] + [DOT, DOT] == [LF, DOT, DOT];
    UnstuffedTwo([LF, DOT, DOT], CR, LF);
    assert [LF, DOT, DOT] + [CR, LF] == wire;
  }
}
