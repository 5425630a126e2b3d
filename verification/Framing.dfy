/** The line reader of the Qt host: newline-separated frames out of reads of any size, bounded at 16 MiB. */
module Framing {
  import opened Utf8

  const MAXIMUM_RPC_FRAME_BYTES: nat := 16 * 1024 * 1024
  const NEWLINE: byte := 10

  // ----- Byte by byte -----

  datatype Reader = Reader(lines: seq<Bytes>, buffer: Bytes, rejected: bool)

  const START := Reader([], [], false)

  function Take(r: Reader, b: byte): Reader
  {
    if r.rejected then r
    else if b == NEWLINE then Reader(r.lines + [r.buffer], [], false)
    else if |r.buffer| + 1 > MAXIMUM_RPC_FRAME_BYTES then Reader(r.lines, [], true)
    else r.(buffer := r.buffer + [b])
  }

  function Run(r: Reader, input: Bytes): Reader
  {
    if input == [] then r else Take(Run(r, input[..|input| - 1]), input[|input| - 1])
  }

  lemma {:induction false} RunConcat(r: Reader, a: Bytes, b: Bytes)
    ensures Run(r, a + b) == Run(Run(r, a), b)
  {
    if b == [] {
      assert a + b == a;
    } else {
      assert (a + b)[..|a + b| - 1] == a + b[..|b| - 1];
      RunConcat(r, a, b[..|b| - 1]);
    }
  }

  lemma {:induction false} RunRejected(r: Reader, input: Bytes)
    requires r.rejected
    ensures Run(r, input) == r
  {
    if input != [] {
      RunRejected(r, input[..|input| - 1]);
    }
  }

  /** Bytes of one frame collect in the buffer until there are too many. */
  lemma {:induction false} RunFrame(lines: seq<Bytes>, frame: Bytes)
    requires NEWLINE !in frame
    ensures Run(Reader(lines, [], false), frame) ==
      if |frame| <= MAXIMUM_RPC_FRAME_BYTES then Reader(lines, frame, false) else Reader(lines, [], true)
  {
    if frame != [] {
      RunFrame(lines, frame[..|frame| - 1]);
      assert frame[..|frame| - 1] + [frame[|frame| - 1]] == frame;
    }
  }

  lemma RunLine(lines: seq<Bytes>, frame: Bytes, rest: Bytes)
    requires NEWLINE !in frame && |frame| <= MAXIMUM_RPC_FRAME_BYTES
    ensures Run(Reader(lines, [], false), frame + [NEWLINE] + rest) == Run(Reader(lines + [frame], [], false), rest)
  {
    RunConcat(Reader(lines, [], false), frame + [NEWLINE], rest);
    assert (frame + [NEWLINE])[..|frame|] == frame;
    RunFrame(lines, frame);
  }

  // ----- The frames of a stream -----

  /** The parts between newlines; the last one is not finished. */
  function Frames(stream: Bytes): (frames: seq<Bytes>)
    ensures |frames| >= 1
  {
    if stream == [] then [[]]
    else
      var before, b := Frames(stream[..|stream| - 1]), stream[|stream| - 1];
      if b == NEWLINE then before + [[]] else before[..|before| - 1] + [before[|before| - 1] + [b]]
  }

  predicate TooLong(frame: Bytes) { |frame| > MAXIMUM_RPC_FRAME_BYTES }

  /** The frames before the first one that is too long. */
  function Accepted(frames: seq<Bytes>): nat
  {
    if frames == [] then 0
    else
      var before := frames[..|frames| - 1];
      var n := Accepted(before);
      if n == |before| && !TooLong(frames[|frames| - 1]) then n + 1 else n
  }

  lemma {:induction false} AcceptedMeaning(frames: seq<Bytes>)
    ensures Accepted(frames) <= |frames|
    ensures forall i :: 0 <= i < Accepted(frames) ==> !TooLong(frames[i])
    ensures Accepted(frames) < |frames| ==> TooLong(frames[Accepted(frames)])
  {
    if frames != [] {
      AcceptedMeaning(frames[..|frames| - 1]);
    }
  }

  /** What a reader must have done with the frames of a stream. */
  predicate Delivered(r: Reader, frames: seq<Bytes>)
    requires |frames| >= 1
  {
    var n := Accepted(frames);
    && (r.rejected <==> n < |frames|)
    && (if r.rejected then r.buffer == [] && n < |frames| && r.lines == frames[..n]
        else r.lines == frames[..|frames| - 1] && r.buffer == frames[|frames| - 1])
  }

  /** Only the last frame grew. */
  lemma SameBefore(before: seq<Bytes>, frames: seq<Bytes>)
    requires |before| == |frames| >= 1 && before[..|before| - 1] == frames[..|frames| - 1]
    requires TooLong(before[|before| - 1]) ==> TooLong(frames[|frames| - 1])
    ensures Accepted(before) < |before| ==> Accepted(frames) == Accepted(before)
    ensures Accepted(before) == |before| ==>
      Accepted(frames) == if TooLong(frames[|frames| - 1]) then |frames| - 1 else |frames|
  {
    AcceptedMeaning(before);
    AcceptedMeaning(before[..|before| - 1]);
  }

  lemma NewlineDelivers(r: Reader, before: seq<Bytes>)
    requires |before| >= 1 && Delivered(r, before)
    ensures Delivered(Take(r, NEWLINE), before + [[]])
  {
    var frames, m := before + [[]], |before| - 1;
    AcceptedMeaning(before);
    assert frames[..|frames| - 1] == before;
    assert before == before[..m] + [before[m]];
  }

  lemma ByteDelivers(r: Reader, before: seq<Bytes>, b: byte)
    requires |before| >= 1 && Delivered(r, before) && b != NEWLINE
    ensures Delivered(Take(r, b), before[..|before| - 1] + [before[|before| - 1] + [b]])
  {
    var m := |before| - 1;
    var frames := before[..m] + [before[m] + [b]];
    AcceptedMeaning(before);
    AcceptedMeaning(frames);
    assert frames[..m] == before[..m];
    SameBefore(before, frames);
  }

  /** For every stream: the lines are exactly the newline-separated frames before the first one longer than 16 MiB, and
      the stream is rejected if and only if there is such a frame. */
  lemma {:induction false} LinesAreFrames(stream: Bytes)
    ensures Delivered(Run(START, stream), Frames(stream))
  {
    if stream != [] {
      var shorter, b := stream[..|stream| - 1], stream[|stream| - 1];
      LinesAreFrames(shorter);
      if b == NEWLINE {
        NewlineDelivers(Run(START, shorter), Frames(shorter));
      } else {
        ByteDelivers(Run(START, shorter), Frames(shorter), b);
      }
    }
  }

  // ----- The transport -----

  class RpcTransport {
    var incoming: Bytes          // what the socket holds
    var readBuffer: Bytes
    var lines: seq<Bytes>        // lineReceived signals
    var rejected: bool           // the error signal was emitted and the socket aborted
    ghost var consumed: Bytes    // everything read so far
    ghost var peak: nat          // the largest size of the buffer so far

    ghost predicate Valid()
      reads this
    {
      && Run(START, consumed) == Reader(lines, readBuffer, rejected)
      && NEWLINE !in readBuffer && |readBuffer| <= MAXIMUM_RPC_FRAME_BYTES && peak <= MAXIMUM_RPC_FRAME_BYTES + 1
      && (rejected ==> incoming == [])
    }

    constructor ()
      ensures Valid() && incoming == [] && lines == [] && !rejected && consumed == []
    {
      incoming, readBuffer, lines, rejected := [], [], [], false;
      consumed, peak := [], 0;
    }

    /** More bytes arrive on an open socket. */
    method Arrive(data: Bytes)
      requires Valid() && !rejected
      modifies this
      ensures Valid() && incoming == old(incoming) + data
      ensures consumed == old(consumed) && !rejected && lines == old(lines)
    {
      incoming := incoming + data;
    }

    method IndexOfNewline() returns (index: int)
      ensures -1 <= index < |readBuffer|
      ensures index == -1 ==> NEWLINE !in readBuffer
      ensures index >= 0 ==> readBuffer[index] == NEWLINE && NEWLINE !in readBuffer[..index]
    {
      index := 0;
      while index < |readBuffer|
        invariant 0 <= index <= |readBuffer| && NEWLINE !in readBuffer[..index]
      {
        if readBuffer[index] == NEWLINE {
          return;
        }
        index := index + 1;
      }
      assert readBuffer[..|readBuffer|] == readBuffer;
      index := -1;
    }

    /** The inner loop: every finished line of the buffer is handed on. */
    method EmitLines()
      requires |readBuffer| <= MAXIMUM_RPC_FRAME_BYTES + 1
      modifies `readBuffer, `lines
      ensures |readBuffer| <= |old(readBuffer)| && NEWLINE !in readBuffer
      ensures Run(Reader(lines, [], false), readBuffer) == Run(Reader(old(lines), [], false), old(readBuffer))
    {
      while true
        invariant |readBuffer| <= |old(readBuffer)|
        invariant Run(Reader(lines, [], false), readBuffer) == Run(Reader(old(lines), [], false), old(readBuffer))
        decreases |readBuffer|
      {
        var newline := IndexOfNewline();
        if newline < 0 {
          return;
        }
        if newline > MAXIMUM_RPC_FRAME_BYTES {
          // the buffer never holds that much
          assert false;
        }
        var line := readBuffer[..newline];
        assert readBuffer == line + [NEWLINE] + readBuffer[newline + 1..];
        RunLine(lines, line, readBuffer[newline + 1..]);
        readBuffer := readBuffer[newline + 1..];
        lines := lines + [line];
      }
    }

    method Reject()
      modifies `readBuffer, `incoming, `rejected
      ensures readBuffer == [] && incoming == [] && rejected
    {
      readBuffer, incoming, rejected := [], [], true;
    }

    /** One read of `n` bytes, the lines it completes, and the check of what is left. */
    method TakeChunk(n: nat)
      requires Valid() && !rejected && 0 < n <= |incoming| && |readBuffer| + n <= MAXIMUM_RPC_FRAME_BYTES + 1
      modifies this
      ensures Valid() && consumed == old(consumed) + old(incoming)[..n]
      ensures !rejected ==> incoming == old(incoming)[n..]
      ensures rejected ==> Run(START, consumed + old(incoming)[n..]) == Run(START, consumed)
    {
      var chunk := incoming[..n];
      ghost var rest := incoming[n..];
      RunAppend(lines, readBuffer, consumed, chunk);
      incoming := incoming[n..];
      readBuffer := readBuffer + chunk;
      consumed := consumed + chunk;
      peak := if |readBuffer| > peak then |readBuffer| else peak;
      assert Run(START, consumed) == Run(Reader(lines, [], false), readBuffer);
      EmitLines();
      ChunkTaken(consumed, lines, readBuffer);
      if |readBuffer| > MAXIMUM_RPC_FRAME_BYTES {
        Reject();
        RestIsDropped(consumed, rest);
      }
    }

    /** `sizes` bounds what each read of the socket returns; a read that returns nothing ends the loop. Whatever the
        sizes, the transport behaves as if it had taken the bytes one at a time. */
    method ConsumeReadyRead(sizes: nat -> nat)
      requires Valid() && !rejected
      modifies this
      ensures Valid() && old(consumed) <= consumed <= old(consumed) + old(incoming)
      ensures !rejected ==> consumed + incoming == old(consumed) + old(incoming)
      ensures (forall n :: sizes(n) > 0) ==>
        Reader(lines, readBuffer, rejected) == Run(START, old(consumed) + old(incoming))
      ensures (forall n :: sizes(n) > 0) ==> incoming == []
    {
      var turn := 0;
      ghost var all := consumed + incoming;
      while |incoming| > 0
        invariant Valid() && !rejected
        invariant old(consumed) <= consumed && consumed + incoming == all
        decreases |incoming|
      {
        var remaining := MAXIMUM_RPC_FRAME_BYTES + 1 - |readBuffer|;
        if remaining <= 0 {
          // the buffer never fills up between two reads
          assert false;
        }
        var readSize := if |incoming| < remaining then |incoming| else remaining;
        var n := if sizes(turn) < readSize then sizes(turn) else readSize;
        turn := turn + 1;
        if n == 0 {
          assert sizes(turn - 1) == 0;
          break;
        }
        assert consumed + incoming == (consumed + incoming[..n]) + incoming[n..];
        TakeChunk(n);
        if rejected {
          return;
        }
      }
      assert consumed + [] == consumed;
    }

    /** A whole stream, in arrivals of any size with the reads of each again of any size: its lines are its frames.
        An aborted socket takes no more arrivals. */
    method Receive(arrivals: seq<Bytes>, sizes: (nat, nat) -> nat)
      requires Valid() && consumed == [] && incoming == [] && lines == [] && readBuffer == [] && !rejected
      modifies this
      ensures Valid()
      ensures (forall i, n :: sizes(i, n) > 0) ==>
        Delivered(Reader(lines, readBuffer, rejected), Frames(Joined(arrivals)))
    {
      ghost var always := forall i, n :: sizes(i, n) > 0;
      for i := 0 to |arrivals|
        invariant Valid()
        invariant always ==> incoming == [] && (!rejected ==> consumed == Joined(arrivals[..i]))
        invariant always ==> Reader(lines, readBuffer, rejected) == Run(START, Joined(arrivals[..i]))
      {
        ghost var before := Joined(arrivals[..i]);
        JoinedSnoc(arrivals, i);
        if rejected {
          RunConcat(START, before, arrivals[i]);
          if always {
            RunRejected(Run(START, before), arrivals[i]);
          }
        } else {
          Arrive(arrivals[i]);
          assert always ==> consumed + incoming == before + arrivals[i];
          ConsumeReadyRead(n => sizes(i, n));
        }
      }
      assert arrivals[..|arrivals|] == arrivals;
      LinesAreFrames(Joined(arrivals));
    }
  }

  function Joined(arrivals: seq<Bytes>): Bytes
  {
    if arrivals == [] then [] else Joined(arrivals[..|arrivals| - 1]) + arrivals[|arrivals| - 1]
  }

  lemma JoinedSnoc(arrivals: seq<Bytes>, i: nat)
    requires i < |arrivals|
    ensures Joined(arrivals[..i + 1]) == Joined(arrivals[..i]) + arrivals[i]
  {
    assert arrivals[..i + 1][..i] == arrivals[..i];
  }

  /** After the lines of a chunk are out, the rest of it is the buffer, or too long for it. */
  lemma ChunkTaken(consumed: Bytes, lines: seq<Bytes>, buffer: Bytes)
    requires Run(START, consumed) == Run(Reader(lines, [], false), buffer) && NEWLINE !in buffer
    ensures |buffer| <= MAXIMUM_RPC_FRAME_BYTES ==> Run(START, consumed) == Reader(lines, buffer, false)
    ensures |buffer| > MAXIMUM_RPC_FRAME_BYTES ==> Run(START, consumed) == Reader(lines, [], true)
  {
    RunFrame(lines, buffer);
  }

  lemma RestIsDropped(before: Bytes, rest: Bytes)
    requires Run(START, before).rejected
    ensures Run(START, before + rest) == Run(START, before)
  {
    RunConcat(START, before, rest);
    RunRejected(Run(START, before), rest);
  }

  lemma RunAppend(lines: seq<Bytes>, buffer: Bytes, before: Bytes, chunk: Bytes)
    requires Run(START, before) == Reader(lines, buffer, false)
    requires NEWLINE !in buffer && |buffer| <= MAXIMUM_RPC_FRAME_BYTES
    ensures Run(START, before + chunk) == Run(Reader(lines, [], false), buffer + chunk)
  {
    RunConcat(START, before, chunk);
    RunFrame(lines, buffer);
    RunConcat(Reader(lines, [], false), buffer, chunk);
  }
}
