/** Messages of the dependency-free codec on the wire: what a receiver gets of them, and two that lose something. */
module SafeMail {
  import opened Wrappers
  import opened Utf8
  import opened Base64
  import opened Mime
  import opened MimeHeaders
  import opened MimeRoundTrip
  import DotStuffing
  import Storage

  // ----- Line breaks -----

  /** Every LF follows a CR. */
  predicate CrlfOnly(s: string) { forall i :: 0 <= i < |s| && s[i] == '\n' ==> i > 0 && s[i - 1] == '\r' }

  predicate CrlfBytesOnly(b: Bytes) { forall i :: 0 <= i < |b| && b[i] == 10 ==> i > 0 && b[i - 1] == 13 }

  lemma CrlfConcat(a: string, b: string)
    requires CrlfOnly(a) && CrlfOnly(b)
    ensures CrlfOnly(a + b)
  {
  }

  lemma CrlfNone(s: string)
    requires '\n' !in s
    ensures CrlfOnly(s)
  {
  }

  lemma EncodeSnoc(s: string, c: char)
    ensures Encode(s + [c]) == Encode(s) + EncodeChar(c)
  {
    EncodeConcat(s, [c]);
    assert Encode([c]) == EncodeChar(c) + Encode("");
  }

  lemma CharBytes(c: char)
    ensures c == '\n' ==> EncodeChar(c) == [10]
    ensures c == '\r' ==> EncodeChar(c) == [13]
    ensures c != '\n' ==> 10 !in EncodeChar(c)
  {
  }

  lemma {:induction false} EncodeCrlf(s: string)
    requires CrlfOnly(s)
    ensures CrlfBytesOnly(Encode(s))
    ensures s != "" && s[|s| - 1] == '\r' ==> Encode(s) != [] && Encode(s)[|Encode(s)| - 1] == 13
    ensures s != "" && s[|s| - 1] != '\n' ==> Encode(s) != [] && Encode(s)[|Encode(s)| - 1] != 10
  {
    if s != "" {
      var before, last := s[..|s| - 1], s[|s| - 1];
      assert s == before + [last];
      EncodeCrlf(before);
      EncodeSnoc(before, last);
      CharBytes(last);
      BreakAtEnd(Encode(before), EncodeChar(last), last);
    }
  }

  lemma BreakAtEnd(before: Bytes, bytes: Bytes, last: char)
    requires CrlfBytesOnly(before) && bytes == EncodeChar(last)
    requires last == '\n' ==> before != [] && before[|before| - 1] == 13
    ensures CrlfBytesOnly(before + bytes)
  {
    CharBytes(last);
    forall i | 0 <= i < |before + bytes| && (before + bytes)[i] == 10 ensures i > 0 && (before + bytes)[i - 1] == 13 {
      if i >= |before| {
        assert bytes[i - |before|] in bytes;
      }
    }
  }

  lemma BytesConcat(a: Bytes, b: Bytes)
    requires CrlfBytesOnly(a) && CrlfBytesOnly(b)
    ensures CrlfBytesOnly(a + b)
  {
  }

  lemma LineBreak(line: Bytes)
    requires MailBytes(line)
    ensures CrlfBytesOnly(line + CRLF)
  {
  }

  lemma {:induction false} WrapCrlf(encoded: Bytes)
    requires MailBytes(encoded)
    ensures CrlfBytesOnly(Wrap(encoded))
  {
    if encoded != [] {
      if |encoded| <= LINE_WIDTH {
        LineBreak(encoded);
      } else {
        LineBreak(encoded[..LINE_WIDTH]);
        WrapCrlf(encoded[LINE_WIDTH..]);
        BytesConcat(encoded[..LINE_WIDTH] + CRLF, Wrap(encoded[LINE_WIDTH..]));
      }
    }
  }

  lemma AsTextCrlf(b: Bytes)
    requires CrlfBytesOnly(b) && forall i :: 0 <= i < |b| ==> b[i] < 128
    ensures CrlfOnly(AsText(b))
  {
    var s := AsText(b);
    forall i | 0 <= i < |s| && s[i] == '\n' ensures i > 0 && s[i - 1] == '\r' {
      assert b[i] == 10;
    }
  }

  lemma WrappedCrlf(body: string)
    ensures CrlfOnly(WrappedText(body))
  {
    EncodedLetters(Encode(body));
    WrapCrlf(EncodeBytes(Encode(body), Standard));
    WrappedIsAscii(body);
    AsTextCrlf(WrappedBody(body));
  }

  lemma {:induction false} BlockCrlf(fields: seq<Field>)
    requires GoodFields(fields)
    ensures CrlfOnly(Block(fields))
  {
    if fields != [] {
      GoodLine(fields[0]);
      CrlfNone(FieldLine(fields[0]));
      CrlfConcat(FieldLine(fields[0]), "\r\n");
      BlockCrlf(fields[1..]);
      CrlfConcat(FieldLine(fields[0]) + "\r\n", Block(fields[1..]));
    }
  }

  /** Text that ends with one line break. */
  predicate EndsOnce(s: string)
  {
    |s| > 2 && s[|s| - 2..] == "\r\n" && !IsBreak(s[|s| - 3])
  }

  lemma EndsOnceAfter(a: string, b: string)
    requires EndsOnce(b)
    ensures EndsOnce(a + b)
  {
    assert (a + b)[|a + b| - 2..] == b[|b| - 2..];
  }

  lemma WrappedEndsOnce(body: string)
    requires body != ""
    ensures EndsOnce(WrappedText(body))
  {
    WrappedEnds(body);
  }

  lemma HeadAndBody(block: string, body: string)
    requires CrlfOnly(block) && CrlfOnly(body)
    ensures CrlfOnly(block + "\r\n" + body)
    ensures EndsOnce(body) ==> EndsOnce(block + "\r\n" + body)
  {
    CrlfConcat(block, "\r\n");
    CrlfConcat(block + "\r\n", body);
    if EndsOnce(body) {
      EndsOnceAfter(block + "\r\n", body);
    }
  }

  lemma SingleCrlf(fields: seq<Field>, media: string, body: string)
    requires GoodFields(fields) && TextMedia(media)
    ensures CrlfOnly(SingleBody(fields, media, body))
    ensures body != "" ==> EndsOnce(SingleBody(fields, media, body))
  {
    GoodTextFields(media);
    GoodAppend(fields, TextFields(media));
    BlockCrlf(fields + TextFields(media));
    WrappedCrlf(body);
    if body != "" {
      WrappedEndsOnce(body);
    }
    HeadAndBody(Block(fields + TextFields(media)), WrappedText(body));
  }

  lemma PartCrlf(boundary: string, media: string, body: string)
    requires '\n' !in boundary && TextMedia(media)
    ensures CrlfOnly(Part(boundary, media, body))
  {
    GoodTextFields(media);
    BlockCrlf(TextFields(media));
    WrappedCrlf(body);
    CrlfNone("--" + boundary);
    HeadAndBody("--" + boundary, Block(TextFields(media)));
    HeadAndBody("--" + boundary + "\r\n" + Block(TextFields(media)), WrappedText(body));
  }

  lemma ClosedCrlf(parts: string, dashes: string, boundary: string)
    requires CrlfOnly(parts) && '\n' !in dashes && '\n' !in boundary
    ensures CrlfOnly(parts + dashes + boundary + "--\r\n") && EndsOnce(parts + dashes + boundary + "--\r\n")
  {
    CrlfNone(dashes);
    CrlfNone(boundary);
    CrlfConcat(parts, dashes);
    CrlfConcat(parts + dashes, boundary);
    CrlfConcat(parts + dashes + boundary, "--\r\n");
    EndsOnceAfter(parts + dashes + boundary, "--\r\n");
  }

  lemma MultipartCrlf(boundary: string, text: string, html: string)
    requires '\n' !in boundary
    ensures CrlfOnly(MultipartBody(boundary, text, html)) && EndsOnce(MultipartBody(boundary, text, html))
  {
    PartCrlf(boundary, "text/plain", text);
    PartCrlf(boundary, "text/html", html);
    CrlfConcat(Part(boundary, "text/plain", text), Part(boundary, "text/html", html));
    ClosedCrlf(Part(boundary, "text/plain", text) + Part(boundary, "text/html", html), "--", boundary);
  }

  /** One body, and it is empty. */
  predicate BlankBody(message: Outgoing)
  {
    match (message.text, message.html)
    case (Some(_), Some(_)) => false
    case (Some(text), None) => text == ""
    case (None, Some(html)) => html == ""
    case (None, None) => true
  }

  lemma SerializedCrlf(from: Address, message: Outgoing, stamp: Stamp)
    requires Build(from, message, stamp).Ok? && Stamped(stamp)
    ensures CrlfOnly(Serialize(from, message, stamp))
    ensures !BlankBody(message) ==> EndsOnce(Serialize(from, message, stamp))
  {
    var fields := EnvelopeFields(from, message, stamp);
    EnvelopeGood(from, message, stamp);
    match (message.text, message.html)
    case (Some(text), Some(html)) =>
      BoundaryGood(stamp);
      MultipartType(Boundary(stamp));
      TypeNameGood();
      GoodAppend(fields, [MultipartField(Boundary(stamp))]);
      BlockCrlf(fields + [MultipartField(Boundary(stamp))]);
      MultipartCrlf(Boundary(stamp), text, html);
      HeadAndBody(Block(fields + [MultipartField(Boundary(stamp))]), MultipartBody(Boundary(stamp), text, html));
    case (Some(text), None) => SingleCrlf(fields, "text/plain", text);
    case (None, Some(html)) => SingleCrlf(fields, "text/html", html);
    case (None, None) => SingleCrlf(fields, "text/plain", "");
  }

  /** What a receiver of the stuffed message has before the end-of-data mark. */
  function Delivered(bytes: Bytes): Bytes { DotStuffing.Unstuffed(DotStuffing.Stuffed(bytes) + CRLF) }

  lemma OneBreakTrimmed(front: Bytes)
    requires front != [] && front[|front| - 1] != 10
    ensures DotStuffing.TrimNewlines(front + CRLF) == front
  {
    assert (front + CRLF)[..|front|] == front;
  }

  lemma EncodedEndsOnce(s: string)
    requires CrlfOnly(s) && EndsOnce(s)
    ensures DotStuffing.TrimNewlines(Encode(s)) + CRLF == Encode(s)
  {
    var front := s[..|s| - 2];
    assert s == front + "\r\n";
    EncodeConcat(front, "\r\n");
    CrlfBytes();
    EncodeCrlf(front);
    OneBreakTrimmed(Encode(front));
  }

  lemma TwoBreaksTrimmed(front: Bytes)
    ensures |DotStuffing.TrimNewlines(front + CRLF + CRLF)| <= |front|
  {
    assert (front + CRLF + CRLF)[..|front + CRLF|] == front + CRLF;
    assert (front + CRLF)[..|front|] == front;
    DotStuffing.TrimShape(front);
  }

  /** A message with a blank body ends with the blank line after its headers. */
  lemma BlankEndsTwice(from: Address, message: Outgoing, stamp: Stamp)
    requires BlankBody(message)
    ensures var bytes := Encode(Serialize(from, message, stamp));
      |DotStuffing.TrimNewlines(bytes) + CRLF| < |bytes|
  {
    var media := if message.html.Some? then "text/html" else "text/plain";
    var fields := EnvelopeFields(from, message, stamp) + TextFields(media);
    WrappedEnds("");
    BlockIsJoin(fields);
    assert Serialize(from, message, stamp) == Join(fields) + "\r\n" + "\r\n";
    EncodeConcat(Join(fields) + "\r\n", "\r\n");
    EncodeConcat(Join(fields), "\r\n");
    CrlfBytes();
    TwoBreaksTrimmed(Encode(Join(fields)));
  }

  /** What the dependency-free codec builds never has an LF without a CR, so the transport's dot-stuffing is transparent
      to it. It arrives byte for byte if and only if its body is not blank (of a blank body the transport takes the
      blank line after the headers away), and what arrives byte for byte parses to what was sent. */
  lemma SafeMessagesArrive(from: Address, message: Outgoing, stamp: Stamp)
    requires Build(from, message, stamp).Ok? && Stamped(stamp)
    ensures var bytes := Build(from, message, stamp).value;
      && !DotStuffing.BareDot(bytes)
      && Delivered(bytes) == DotStuffing.TrimNewlines(bytes) + CRLF
      && (Delivered(bytes) == bytes <==> !BlankBody(message))
      && (!BlankBody(message) && |bytes| <= MAX_MAIL_MESSAGE_BYTES ==>
            Parse(Delivered(bytes)).Ok? && Parse(Delivered(bytes)).value.content == Arrived(message))
  {
    var bytes := Build(from, message, stamp).value;
    SerializedCrlf(from, message, stamp);
    EncodeCrlf(Serialize(from, message, stamp));
    DotStuffing.CrlfMessagesAreTransparent(bytes);
    DotStuffing.TransparentExactly(bytes);
    if BlankBody(message) {
      BlankEndsTwice(from, message, stamp);
    } else {
      EncodedEndsOnce(Serialize(from, message, stamp));
      ParseUndoesBuild(from, message, stamp);
    }
  }

  // ----- One message that loses a body -----

  const SENDER := Storage.Address("", "a@b")
  const EMPTY_TEXT := Outgoing([], [], [], "", Some(""), Some("x"))
  const STAMP := Stamp("", "", "0")

  lemma {:induction false} EncodeLength(s: string)
    ensures |Encode(s)| <= 4 * |s|
  {
    if s != "" {
      EncodeLength(s[1..]);
    }
  }

  lemma {:induction false} BlockLength(fields: seq<Field>)
    requires forall i :: 0 <= i < |fields| ==> |FieldLine(fields[i])| <= 98
    ensures |Block(fields)| <= 100 * |fields|
  {
    if fields != [] {
      BlockLength(fields[1..]);
    }
  }

  lemma {:induction false} WrapLength(encoded: Bytes)
    ensures |Wrap(encoded)| <= 3 * |encoded|
  {
    if |encoded| > LINE_WIDTH {
      WrapLength(encoded[LINE_WIDTH..]);
    }
  }

  lemma WrappedLength(body: string)
    ensures |WrappedText(body)| <= 16 * |body| + 8
  {
    EncodeLength(body);
    EncodedLetters(Encode(body));
    WrapLength(EncodeBytes(Encode(body), Standard));
  }

  lemma PartLength(boundary: string, media: string, body: string)
    requires TextMedia(media)
    ensures |Part(boundary, media, body)| <= 16 * |body| + |boundary| + 214
  {
    WrappedLength(body);
    BlockLength(TextFields(media));
  }

  lemma EnvelopeLength()
    ensures var fields := EnvelopeFields(SENDER, EMPTY_TEXT, STAMP) + [MultipartField(Boundary(STAMP))];
      |fields| == 7 && forall i :: 0 <= i < |fields| ==> |FieldLine(fields[i])| <= 98
  {
  }

  lemma SenderAccepted()
    ensures CheckAddresses([SENDER] + [] + [] + []) == None
  {
    assert [SENDER] + [] + [] + [] == [SENDER] && [SENDER][1..] == [];
    assert SENDER.address[1] == '@';
  }

  lemma EmptyTextAccepted()
    ensures Build(SENDER, EMPTY_TEXT, STAMP).Ok? && |Build(SENDER, EMPTY_TEXT, STAMP).value| <= MAX_MAIL_MESSAGE_BYTES
    ensures Stamped(STAMP)
  {
    SenderAccepted();
    EnvelopeLength();
    BlockLength(EnvelopeFields(SENDER, EMPTY_TEXT, STAMP) + [MultipartField(Boundary(STAMP))]);
    PartLength(Boundary(STAMP), "text/plain", "");
    PartLength(Boundary(STAMP), "text/html", "x");
    EncodeLength(Serialize(SENDER, EMPTY_TEXT, STAMP));
  }

  /** An accepted message with an empty text and the HTML x comes back with no text. */
  lemma EmptyTextIsLost()
    ensures Build(SENDER, EMPTY_TEXT, STAMP).Ok?
    ensures var parsed := Parse(Build(SENDER, EMPTY_TEXT, STAMP).value);
      parsed.Ok? && parsed.value.content.text == None && parsed.value.content.html == Some("x")
  {
    EmptyTextAccepted();
    ParseUndoesBuild(SENDER, EMPTY_TEXT, STAMP);
  }
}
