/** The dependency-free MIME codec: the printer, and the parser with nested multiparts, both transfer encodings and the
    attachment budget. */
module Mime {
  import opened Wrappers
  import opened Utf8
  import opened Base64
  import opened Text
  import Storage

  const MAX_MAIL_MESSAGE_BYTES: nat := 64 * 1024 * 1024
  const MAX_MAIL_ATTACHMENT_BYTES: nat := 64 * 1024 * 1024
  const MAX_MIME_ATTACHMENTS: nat := 256

  datatype MimeError =
    | MessageTooLarge | AttachmentLimitExceeded | MissingHeaders | InvalidHeaderEncoding | MalformedHeader
    | MissingBoundary
    | InvalidBase64 | InvalidQuotedPrintable | HeaderInjection | InvalidAddress

  type Address = Storage.Address

  // ----- Searching -----

  predicate MatchAt<T(==)>(hay: seq<T>, needle: seq<T>, i: nat)
  {
    i + |needle| <= |hay| && hay[i..i + |needle|] == needle
  }

  /** The first place of a needle that is not empty. */
  function Find<T(==)>(hay: seq<T>, needle: seq<T>): (r: Option<nat>)
    ensures r.Some? ==> MatchAt(hay, needle, r.value) && forall i :: 0 <= i < r.value ==> !MatchAt(hay, needle, i)
    ensures r.None? ==> forall i :: 0 <= i <= |hay| ==> !MatchAt(hay, needle, i)
  {
    if |hay| < |needle| then None
    else if hay[..|needle|] == needle then Some(0)
    else
      var rest := Find(hay[1..], needle);
      assert forall i :: 1 <= i <= |hay| ==> (MatchAt(hay, needle, i) <==> MatchAt(hay[1..], needle, i - 1)) by {
        forall i | 1 <= i <= |hay| ensures MatchAt(hay, needle, i) <==> MatchAt(hay[1..], needle, i - 1) {
          if i + |needle| <= |hay| {
            assert hay[i..i + |needle|] == hay[1..][i - 1..i - 1 + |needle|];
          }
        }
      }
      match rest case Some(i) => Some(i + 1) case None => None
  }

  /** `str::split` at every occurrence of a marker that is not empty. */
  function SplitOn(s: string, marker: string): (parts: seq<string>)
    requires marker != ""
    ensures |parts| >= 1
    ensures forall i :: 1 <= i < |parts| ==> |parts[i]| < |s|
  {
    match Find(s, marker)
    case None => [s]
    case Some(i) => [s[..i]] + SplitOn(s[i + |marker|..], marker)
  }

  // ----- Text -----

  predicate StartsWith<T(==)>(s: seq<T>, prefix: seq<T>) { |prefix| <= |s| && s[..|prefix|] == prefix }

  function TrimBreaks(s: string): (r: string)
    ensures |r| <= |s|
  {
    if s != "" && (s[|s| - 1] == '\r' || s[|s| - 1] == '\n') then TrimBreaks(s[..|s| - 1]) else s
  }

  function TrimQuotesStart(s: string): string { if s != "" && s[0] == '"' then TrimQuotesStart(s[1..]) else s }

  function TrimQuotesEnd(s: string): string
  {
    if s != "" && s[|s| - 1] == '"' then TrimQuotesEnd(s[..|s| - 1]) else s
  }

  function TrimQuotes(s: string): string { TrimQuotesEnd(TrimQuotesStart(s)) }

  function ReplaceCrlf(s: string): string
  {
    if s == "" then ""
    else if |s| >= 2 && s[0] == '\r' && s[1] == '\n' then "\n" + ReplaceCrlf(s[2..])
    else [s[0]] + ReplaceCrlf(s[1..])
  }

  function StripCr(line: string): string
  {
    if line != "" && line[|line| - 1] == '\r' then line[..|line| - 1] else line
  }

  /** `str::lines`. */
  function Lines(s: string): seq<string>
  {
    var parts := Split(s, '\n');
    var kept := if parts[|parts| - 1] == "" then parts[..|parts| - 1] else parts;
    seq(|kept|, i requires 0 <= i < |kept| => StripCr(kept[i]))
  }

  /** How many bytes one replacement character stands for: the longest prefix of a well-formed sequence, at least one
      byte. */
  function InvalidLength(b: Bytes): (n: nat)
    requires b != []
    ensures 1 <= n <= |b|
  {
    var lead := b[0];
    var second: bool := |b| >= 2 && (
      if lead == 0xE0 then 0xA0 <= b[1] < 0xC0
      else if lead == 0xED then 0x80 <= b[1] < 0xA0
      else if lead == 0xF0 then 0x90 <= b[1] < 0xC0
      else if lead == 0xF4 then 0x80 <= b[1] < 0x90
      else Continuation(b[1]));
    if !(0xE0 <= lead < 0xF5) || !second then 1
    else if lead < 0xF0 || !(|b| >= 3 && Continuation(b[2])) then 2
    else 3
  }

  /** `String::from_utf8_lossy`. */
  function Lossy(b: Bytes): string
  {
    if b == [] then ""
    else match DecodeFirst(b)
      case Some(first) => [first.0] + Lossy(b[first.1..])
      case None => ['\U{FFFD}'] + Lossy(b[InvalidLength(b)..])
  }

  /** ASCII bytes as text. */
  function AsText(b: Bytes): string
    requires forall i :: 0 <= i < |b| ==> b[i] < 128
  {
    seq(|b|, i requires 0 <= i < |b| => b[i] as char)
  }

  // ----- Headers -----

  type Headers = map<string, string>

  const BLANK_LINE: Bytes := [13, 10, 13, 10]

  function SplitHeadersBody(message: Bytes): (r: Option<(Bytes, Bytes)>)
    ensures r.Some? ==> |r.value.1| < |message|
  {
    match Find(message, BLANK_LINE)
    case Some(i) => Some((message[..i], message[i + 4..]))
    case None =>
      match Find(message, [10, 10])
      case Some(i) => Some((message[..i], message[i + 2..]))
      case None => None
  }

  predicate Folded(line: string) { line != "" && (line[0] == ' ' || line[0] == '\t') }

  /** A folded line continues the one before it. */
  function Unfold(lines: seq<string>): Option<seq<string>>
  {
    if lines == [] then Some([])
    else
      var line := lines[|lines| - 1];
      match Unfold(lines[..|lines| - 1])
      case None => None
      case Some(before) =>
        if !Folded(line) then Some(before + [line])
        else if before == [] then None
        else Some(before[|before| - 1 := before[|before| - 1] + " " + Trim(line)])
  }

  /** Later headers of the same name replace earlier ones. */
  function Collect(lines: seq<string>): Option<Headers>
  {
    if lines == [] then Some(map[])
    else match Collect(lines[..|lines| - 1])
      case None => None
      case Some(headers) =>
        match SplitOnce(lines[|lines| - 1], ':')
        case None => None
        case Some(pair) => Some(headers[LowerAscii(Trim(pair.0)) := Trim(pair.1)])
  }

  function ParseHeaders(raw: Bytes): Result<Headers, MimeError>
  {
    match Decode(raw)
    case None => Err(InvalidHeaderEncoding)
    case Some(text) =>
      match Unfold(Lines(ReplaceCrlf(text)))
      case None => Err(MalformedHeader)
      case Some(lines) => match Collect(lines) case None => Err(MalformedHeader) case Some(headers) => Ok(headers)
  }

  function Lookup(headers: Headers, name: string): Option<string>
  {
    if name in headers then Some(headers[name]) else None
  }

  function OrElse(value: Option<string>, default: string): string { if value.Some? then value.value else default }

  function ParameterIn(parts: seq<string>, name: string): Option<string>
  {
    if parts == [] then None
    else match SplitOnce(Trim(parts[0]), '=')
      case Some(pair) =>
        if LowerAscii(pair.0) == LowerAscii(name) then Some(TrimQuotes(Trim(pair.1))) else ParameterIn(parts[1..], name)
      case None => ParameterIn(parts[1..], name)
  }

  function Parameter(value: string, name: string): Option<string> { ParameterIn(Split(value, ';')[1..], name) }

  // ----- Transfer encodings -----

  function HexDigit(b: byte): (r: Option<nat>)
    ensures r.Some? ==> r.value < 16
  {
    if 48 <= b <= 57 then Some(b as nat - 48)
    else if 97 <= b <= 102 then Some(b as nat - 97 + 10)
    else if 65 <= b <= 70 then Some(b as nat - 65 + 10)
    else None
  }

  function Prepend(b: byte, rest: Option<Bytes>): Option<Bytes>
  {
    match rest case None => None case Some(bytes) => Some([b] + bytes)
  }

  function DecodeQuotedPrintable(input: Bytes): Option<Bytes>
  {
    if input == [] then Some([])
    else if input[0] != 61 then Prepend(input[0], DecodeQuotedPrintable(input[1..]))
    else if StartsWith(input[1..], [13, 10]) then DecodeQuotedPrintable(input[3..])
    else if StartsWith(input[1..], [10]) then DecodeQuotedPrintable(input[2..])
    else if |input| < 3 then None
    else match (HexDigit(input[1]), HexDigit(input[2]))
      case (Some(high), Some(low)) => Prepend(high * 16 + low, DecodeQuotedPrintable(input[3..]))
      case _ => None
  }

  function DecodeBody(body: Bytes, encoding: string): Result<Bytes, MimeError>
  {
    var name := LowerAscii(Trim(encoding));
    if name == "base64" then
      match DecodeBase64(body) case Some(data) => Ok(data) case None => Err(InvalidBase64)
    else if name == "quoted-printable" then
      match DecodeQuotedPrintable(body) case Some(data) => Ok(data) case None => Err(InvalidQuotedPrintable)
    else Ok(body)
  }

  // ----- Entities -----

  datatype Attachment = Attachment(
    filename: string, contentType: string, contentId: Option<string>, inline: bool, data: Bytes)

  datatype Content = Content(
    text: Option<string>, html: Option<string>, attachments: seq<Attachment>, attachmentBytes: nat)

  const NO_CONTENT := Content(None, None, [], 0)

  function StripBreak(segment: string): (r: string)
    ensures |r| <= |segment|
  {
    if StartsWith(segment, "\r\n") then segment[2..]
    else if StartsWith(segment, "\n") then segment[1..]
    else segment
  }

  function Trimmed(segment: string): string { TrimBreaks(StripBreak(segment)) }

  lemma SliceOfRest(body: Bytes, offset: nat, start: nat, end: nat)
    requires start <= end && offset + end <= |body|
    ensures body[offset..][start..end] == body[offset + start..offset + end]
  {
  }

  /** The slice of the body, from an offset on, that holds a segment without its line breaks. */
  function FindPart(body: Bytes, segment: string, offset: nat): (r: Option<(nat, nat)>)
    requires offset <= |body|
    ensures r.Some? ==> offset <= r.value.0 <= r.value.1 <= |body|
    ensures r.Some? ==> body[r.value.0..r.value.1] == Encode(Trimmed(segment))
  {
    if Trimmed(segment) == "" then None
    else
      var needle := Encode(Trimmed(segment));
      match Find(body[offset..], needle)
      case None => None
      case Some(i) =>
        SliceOfRest(body, offset, i, i + |needle|);
        Some((offset + i, offset + i + |needle|))
  }

  /** The parts of the segments from the i-th on, each after the one before it. */
  function PartsFrom(body: Bytes, segments: seq<string>, i: nat, offset: nat): (parts: seq<Bytes>)
    requires offset <= |body| && i <= |segments|
    ensures forall k :: 0 <= k < |parts| ==> |parts[k]| <= |body|
    decreases |segments| - i
  {
    if i == |segments| || StartsWith(segments[i], "--") then []
    else match FindPart(body, segments[i], offset)
      case None => PartsFrom(body, segments, i + 1, offset)
      case Some(slice) => [body[slice.0..slice.1]] + PartsFrom(body, segments, i + 1, slice.1)
  }

  function SplitMultipart(body: Bytes, boundary: string): (parts: seq<Bytes>)
    ensures forall k :: 0 <= k < |parts| ==> |parts[k]| <= |body|
  {
    PartsFrom(body, SplitOn(Lossy(body), "--" + boundary)[1..], 0, 0)
  }

  lemma AppendFirst<T>(a: seq<T>, x: T, b: seq<T>)
    ensures a + ([x] + b) == a + [x] + b
  {
  }

  method CollectParts(body: Bytes, segments: seq<string>) returns (parts: seq<Bytes>)
    ensures parts == PartsFrom(body, segments, 0, 0)
  {
    var offset: nat, i: nat := 0, 0;
    parts := [];
    while i < |segments|
      invariant i <= |segments| && offset <= |body|
      invariant parts + PartsFrom(body, segments, i, offset) == PartsFrom(body, segments, 0, 0)
    {
      if StartsWith(segments[i], "--") {
        return;
      }
      var slice := FindPart(body, segments[i], offset);
      i := i + 1;
      if slice.Some? {
        AppendFirst(parts, body[slice.value.0..slice.value.1], PartsFrom(body, segments, i, slice.value.1));
        parts := parts + [body[slice.value.0..slice.value.1]];
        offset := slice.value.1;
      }
    }
  }

  method SplitMultipartBody(body: Bytes, boundary: string) returns (parts: seq<Bytes>)
    ensures parts == SplitMultipart(body, boundary)
  {
    var segments := SplitOn(Lossy(body), "--" + boundary)[1..];
    parts := CollectParts(body, segments);
  }

  predicate AttachmentFits(content: Content, data: Bytes)
  {
    && |content.attachments| < MAX_MIME_ATTACHMENTS && |data| <= MAX_MAIL_ATTACHMENT_BYTES
    && content.attachmentBytes + |data| <= MAX_MAIL_ATTACHMENT_BYTES
  }

  function ParseLeaf(headers: Headers, contentType: string, mediaType: string, body: Bytes, content: Content)
    : Result<Content, MimeError>
  {
    match DecodeBody(body, OrElse(Lookup(headers, "content-transfer-encoding"), "8bit"))
    case Err(error) => Err(error)
    case Ok(data) =>
      var disposition := OrElse(Lookup(headers, "content-disposition"), "");
      var named := Parameter(disposition, "filename");
      var filename := if named.Some? then named else Parameter(contentType, "name");
      if StartsWith(LowerAscii(disposition), "attachment") || filename.Some?
        || (!StartsWith(mediaType, "text/") && mediaType != "message/rfc822")
      then
        if !AttachmentFits(content, data) then Err(AttachmentLimitExceeded)
        else
          var attachment := Attachment(OrElse(filename, "attachment"), mediaType, Lookup(headers, "content-id"),
                                       StartsWith(LowerAscii(disposition), "inline"), data);
          Ok(content.(attachments := content.attachments + [attachment],
                      attachmentBytes := content.attachmentBytes + |data|))
      else if mediaType == "text/html" then Ok(content.(html := Some(Lossy(data))))
      else if mediaType == "text/plain" then Ok(content.(text := Some(Lossy(data))))
      else Ok(content)
  }

  function MediaType(contentType: string): string { LowerAscii(Trim(Split(contentType, ';')[0])) }

  function ParseEntity(headers: Headers, body: Bytes, content: Content): Result<Content, MimeError>
    decreases |body|, 1, 0
  {
    var contentType := OrElse(Lookup(headers, "content-type"), "text/plain");
    if StartsWith(MediaType(contentType), "multipart/") then
      match Parameter(contentType, "boundary")
      case None => Err(MissingBoundary)
      case Some(boundary) => ParseParts(SplitMultipart(body, boundary), |body|, content)
    else ParseLeaf(headers, contentType, MediaType(contentType), body, content)
  }

  /** Parts without a blank line are skipped. */
  function ParseParts(parts: seq<Bytes>, bound: nat, content: Content): Result<Content, MimeError>
    requires forall i :: 0 <= i < |parts| ==> |parts[i]| <= bound
    decreases bound, 0, |parts|
  {
    if parts == [] then Ok(content)
    else match ParseParts(parts[..|parts| - 1], bound, content)
      case Err(error) => Err(error)
      case Ok(before) => ParsePart(parts[|parts| - 1], bound, before)
  }

  function ParsePart(part: Bytes, bound: nat, content: Content): Result<Content, MimeError>
    requires |part| <= bound
    decreases bound, 0, 0
  {
    match SplitHeadersBody(part)
    case None => Ok(content)
    case Some(pair) =>
      match ParseHeaders(pair.0)
      case Err(error) => Err(error)
      case Ok(headers) => ParseEntity(headers, pair.1, content)
  }

  datatype ParsedMime = ParsedMime(headers: Headers, content: Content)

  function Parse(message: Bytes): Result<ParsedMime, MimeError>
  {
    if |message| > MAX_MAIL_MESSAGE_BYTES then Err(MessageTooLarge)
    else match SplitHeadersBody(message)
      case None => Err(MissingHeaders)
      case Some(pair) =>
        match ParseHeaders(pair.0)
        case Err(error) => Err(error)
        case Ok(headers) =>
          match ParseEntity(headers, pair.1, NO_CONTENT)
          case Err(error) => Err(error)
          case Ok(content) => Ok(ParsedMime(headers, content))
  }

  // ----- Building -----

  datatype Outgoing = Outgoing(
    to: seq<Address>, cc: seq<Address>, bcc: seq<Address>, subject: string, text: Option<string>, html: Option<string>)

  /** What the clock and the UUID generator supply. */
  datatype Stamp = Stamp(date: string, messageUuid: string, boundaryUuid: string)

  predicate ValidHeader(value: string) { '\r' !in value && '\n' !in value }

  predicate AddressSafe(address: Address) { ValidHeader(address.name) && ValidHeader(address.address) }

  function CheckAddress(address: Address): Option<MimeError>
  {
    if !AddressSafe(address) then Some(HeaderInjection)
    else if '@' !in address.address then Some(InvalidAddress)
    else None
  }

  /** The first error among the addresses. */
  function CheckAddresses(addresses: seq<Address>): Option<MimeError>
  {
    if addresses == [] then None
    else if CheckAddress(addresses[0]).Some? then CheckAddress(addresses[0])
    else CheckAddresses(addresses[1..])
  }

  function EscapeQuotes(s: string): string
  {
    if s == "" then "" else (if s[0] == '"' then "\\\"" else [s[0]]) + EscapeQuotes(s[1..])
  }

  function FormatAddress(address: Address): string
  {
    if address.name == "" then address.address
    else "\"" + EscapeQuotes(address.name) + "\" <" + address.address + ">"
  }

  function FormatAddresses(addresses: seq<Address>): string
  {
    if addresses == [] then ""
    else if |addresses| == 1 then FormatAddress(addresses[0])
    else FormatAddress(addresses[0]) + ", " + FormatAddresses(addresses[1..])
  }

  datatype Field = Field(name: string, value: string)

  function FieldLine(field: Field): string { field.name + ": " + field.value }

  /** Header lines with their line breaks. */
  function Block(fields: seq<Field>): string
  {
    if fields == [] then "" else FieldLine(fields[0]) + "\r\n" + Block(fields[1..])
  }

  /** Bcc is left out on purpose. */
  function EnvelopeFields(from: Address, message: Outgoing, stamp: Stamp): seq<Field>
  {
    [Field("From", FormatAddress(from)), Field("To", FormatAddresses(message.to))]
    + (if message.cc == [] then [] else [Field("Cc", FormatAddresses(message.cc))])
    + [Field("Subject", message.subject), Field("Date", stamp.date),
       Field("Message-ID", "<" + stamp.messageUuid + "@quickmail.local>"), Field("MIME-Version", "1.0")]
  }

  function TextFields(mediaType: string): seq<Field>
  {
    [Field("Content-Type", mediaType + "; charset=utf-8"), Field("Content-Transfer-Encoding", "base64")]
  }

  /** Wrapped base64 of the UTF-8 form of a body. */
  function WrappedBody(body: string): Bytes { Wrap(EncodeBytes(Encode(body), Standard)) }

  lemma WrappedIsAscii(body: string)
    ensures forall i :: 0 <= i < |WrappedBody(body)| ==> WrappedBody(body)[i] < 128
    ensures forall i :: 0 <= i < |WrappedBody(body)| ==> MailByte(WrappedBody(body)[i]) || WrappedBody(body)[i] in CRLF
  {
    EncodedLetters(Encode(body));
    WrappedBytes(EncodeBytes(Encode(body), Standard));
  }

  function WrappedText(body: string): string { WrappedIsAscii(body); AsText(WrappedBody(body)) }

  function Boundary(stamp: Stamp): string { "quickmail-alt-" + stamp.boundaryUuid }

  function Part(boundary: string, mediaType: string, body: string): string
  {
    "--" + boundary + "\r\n" + Block(TextFields(mediaType)) + "\r\n" + WrappedText(body)
  }

  function MultipartField(boundary: string): Field
  {
    Field("Content-Type", "multipart/alternative; boundary=\"" + boundary + "\"")
  }

  function SingleBody(fields: seq<Field>, mediaType: string, body: string): string
  {
    Block(fields + TextFields(mediaType)) + "\r\n" + WrappedText(body)
  }

  function MultipartBody(boundary: string, text: string, html: string): string
  {
    Part(boundary, "text/plain", text) + Part(boundary, "text/html", html) + "--" + boundary + "--\r\n"
  }

  function Serialize(from: Address, message: Outgoing, stamp: Stamp): string
  {
    var fields := EnvelopeFields(from, message, stamp);
    match (message.text, message.html)
    case (Some(text), Some(html)) =>
      Block(fields + [MultipartField(Boundary(stamp))]) + "\r\n" + MultipartBody(Boundary(stamp), text, html)
    case (Some(text), None) => SingleBody(fields, "text/plain", text)
    case (None, Some(html)) => SingleBody(fields, "text/html", html)
    case (None, None) => SingleBody(fields, "text/plain", "")
  }

  function Build(from: Address, message: Outgoing, stamp: Stamp): Result<Bytes, MimeError>
  {
    var error := CheckAddresses([from] + message.to + message.cc + message.bcc);
    if error.Some? then Err(error.value)
    else if !ValidHeader(message.subject) then Err(HeaderInjection)
    else Ok(Encode(Serialize(from, message, stamp)))
  }
}
