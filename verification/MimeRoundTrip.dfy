/** Parsing undoes building. */
module MimeRoundTrip {
  import opened Wrappers
  import opened Utf8
  import opened Base64
  import opened Text
  import opened Mime
  import opened MimeHeaders

  // ----- Text as bytes -----

  lemma {:induction false} LossyEncode(s: string)
    ensures Lossy(Encode(s)) == s
  {
    if s != "" {
      DecodeFirstEncode(s[0], Encode(s[1..]));
      assert Encode(s)[|EncodeChar(s[0])|..] == Encode(s[1..]);
      LossyEncode(s[1..]);
      assert [s[0]] + s[1..] == s;
    }
  }

  lemma EncodeAsText(b: Bytes)
    requires forall i :: 0 <= i < |b| ==> b[i] < 128
    ensures Encode(AsText(b)) == b
  {
    EncodeAscii(AsText(b));
  }

  // ----- Names and values of the printed headers -----

  lemma LowerLength(s: string, t: string)
    requires |s| != |t|
    ensures LowerAscii(s) != t
  {
  }

  lemma {:induction false} AbsentKey(fields: seq<Field>, key: string)
    requires forall i :: 0 <= i < |fields| ==> |fields[i].name| != |key|
    ensures key !in Pairs(fields)
  {
    if fields != [] {
      AbsentKey(fields[..|fields| - 1], key);
    }
  }

  lemma {:induction false} KeptKey(before: seq<Field>, field: Field, after: seq<Field>)
    requires forall i :: 0 <= i < |after| ==> |after[i].name| != |field.name|
    ensures KeyOf(field) in Pairs(before + [field] + after)
    ensures Pairs(before + [field] + after)[KeyOf(field)] == Trim(field.value)
  {
    var all := before + [field] + after;
    if after == [] {
      assert all[..|all| - 1] == before;
    } else {
      assert all[..|all| - 1] == before + [field] + after[..|after| - 1];
      KeptKey(before, field, after[..|after| - 1]);
    }
  }

  lemma TypeKey()
    ensures LowerAscii("Content-Type") == "content-type"
  {
    LowerOf("Content-Type", "content-type");
  }

  lemma EncodingKey()
    ensures LowerAscii("Content-Transfer-Encoding") == "content-transfer-encoding"
  {
    LowerOf("Content-Transfer-Encoding", "content-transfer-encoding");
  }

  /** Names no parser decision depends on. */
  predicate Neutral(fields: seq<Field>)
  {
    forall i :: 0 <= i < |fields| ==> |fields[i].name| != 19 && |fields[i].name| != 3
  }

  predicate TextMedia(media: string) { media == "text/plain" || media == "text/html" }

  /** What the parser looks up when a kind and an encoding are the last two fields. */
  lemma LastTwo(before: seq<Field>, kind: Field, encoding: Field)
    requires Neutral(before) && |kind.name| == 12 && |encoding.name| == 25
    requires LowerAscii(kind.name) == "content-type" && LowerAscii(encoding.name) == "content-transfer-encoding"
    ensures var h := Pairs(before + [kind, encoding]);
      && Lookup(h, "content-type") == Some(Trim(kind.value))
      && Lookup(h, "content-transfer-encoding") == Some(Trim(encoding.value))
      && Lookup(h, "content-disposition") == None && Lookup(h, "bcc") == None
  {
    var fields := before + [kind, encoding];
    assert fields == before + [kind] + [encoding];
    KeptKey(before, kind, [encoding]);
    assert fields == (before + [kind]) + [encoding] + [];
    KeptKey(before + [kind], encoding, []);
    AbsentKey(fields, "content-disposition");
    AbsentKey(fields, "bcc");
  }

  /** A content type with one parameter. */
  function WithParameter(media: string, key: string, value: string): string
  {
    media + [';'] + (" " + (key + ['='] + value))
  }

  lemma ContentType(media: string, key: string, value: string, name: string)
    requires ';' !in media && ';' !in key && ';' !in value && '=' !in key
    requires key != "" && !IsWhitespace(key[0]) && value != "" && !IsWhitespace(value[|value| - 1])
    ensures MediaType(WithParameter(media, key, value)) == LowerAscii(Trim(media))
    ensures Parameter(WithParameter(media, key, value), name) ==
      if LowerAscii(key) == LowerAscii(name) then Some(TrimQuotes(Trim(value))) else None
  {
    var pair := key + ['='] + value;
    SplitAt(media, ';', " " + pair);
    SplitWithout(" " + pair, ';');
    var parts := Split(WithParameter(media, key, value), ';');
    assert parts == [media] + [" " + pair];
    assert parts[1..] == [" " + pair];
    OneParameter(" " + pair, key, value, name);
  }

  lemma OneParameter(part: string, key: string, value: string, name: string)
    requires part == " " + (key + ['='] + value) && '=' !in key
    requires key != "" && !IsWhitespace(key[0]) && value != "" && !IsWhitespace(value[|value| - 1])
    ensures ParameterIn([part], name) ==
      if LowerAscii(key) == LowerAscii(name) then Some(TrimQuotes(Trim(value))) else None
  {
    var pair := key + ['='] + value;
    TrimPadded(pair);
    TrimIdentity(pair);
    SplitOnceAt(key, '=', value);
    assert SplitOnce(Trim(part), '=') == Some((key, value));
    assert [part][1..] == [];
  }

  lemma TextContentType(media: string)
    requires TextMedia(media)
    ensures MediaType(media + "; charset=utf-8") == media
    ensures Parameter(media + "; charset=utf-8", "name") == None
  {
    TextValue(media);
    ContentType(media, "charset", "utf-8", "name");
    CharsetIsNoName();
    TrimIdentity(media);
    LowerOf(media, media);
  }

  lemma TextValue(media: string)
    requires TextMedia(media)
    ensures media + "; charset=utf-8" == WithParameter(media, "charset", "utf-8") && ';' !in media
  {
  }

  lemma CharsetIsNoName()
    ensures LowerAscii("charset") != LowerAscii("name")
    ensures ';' !in "charset" && ';' !in "utf-8" && '=' !in "charset"
  {
    LowerLength("charset", LowerAscii("name"));
  }

  lemma TextHeaders(before: seq<Field>, media: string)
    requires Neutral(before) && TextMedia(media)
    ensures var h := Pairs(before + TextFields(media));
      && Lookup(h, "content-type") == Some(media + "; charset=utf-8")
      && Lookup(h, "content-transfer-encoding") == Some("base64")
      && Lookup(h, "content-disposition") == None && Lookup(h, "bcc") == None
  {
    var kind, encoding := TextFields(media)[0], TextFields(media)[1];
    TypeKey();
    EncodingKey();
    LastTwo(before, kind, encoding);
    assert TextFields(media) == [kind, encoding];
    TrimIdentity(kind.value);
    TrimIdentity(encoding.value);
  }

  lemma NoDisposition()
    ensures Parameter("", "filename") == None && !StartsWith(LowerAscii(""), "attachment")
  {
    assert Split("", ';')[1..] == [];
  }

  function WithText(content: Content, media: string, text: string): Content
  {
    if media == "text/html" then content.(html := Some(text)) else content.(text := Some(text))
  }

  lemma Base64Body(body: Bytes)
    requires DecodeBase64(body).Some?
    ensures DecodeBody(body, "base64") == Ok(DecodeBase64(body).value)
  {
    TrimIdentity("base64");
    LowerOf("base64", "base64");
  }

  lemma TextLeaf(headers: Headers, contentType: string, media: string, body: Bytes, text: string, content: Content)
    requires TextMedia(media) && DecodeBase64(body) == Some(Encode(text))
    requires Lookup(headers, "content-transfer-encoding") == Some("base64")
    requires Lookup(headers, "content-disposition") == None
    requires Parameter(contentType, "name") == None
    ensures ParseLeaf(headers, contentType, media, body, content) == Ok(WithText(content, media, text))
  {
    NoDisposition();
    Base64Body(body);
    LossyEncode(text);
    assert media[..5] == "text/";
  }

  lemma NotMultipart(media: string)
    requires media != "" && media[0] != 'm'
    ensures !StartsWith(media, "multipart/")
  {
    assert |media| >= 10 ==> media[..10][0] == media[0];
  }

  /** A printed text entity parses to its text. */
  lemma TextEntity(before: seq<Field>, media: string, body: Bytes, text: string, content: Content)
    requires Neutral(before) && TextMedia(media) && DecodeBase64(body) == Some(Encode(text))
    ensures ParseEntity(Pairs(before + TextFields(media)), body, content) == Ok(WithText(content, media, text))
  {
    var h := Pairs(before + TextFields(media));
    var contentType := media + "; charset=utf-8";
    TextHeaders(before, media);
    TextContentType(media);
    NotMultipart(media);
    TextLeaf(h, contentType, media, body, text, content);
  }

  // ----- Multipart -----

  /** No two dashes in a row, and none at the end: a marker cannot begin inside. */
  predicate Quiet(s: string)
  {
    && (forall i :: 0 <= i < |s| - 1 ==> s[i] != '-' || s[i + 1] != '-')
    && (s != "" ==> s[|s| - 1] != '-')
  }

  lemma QuietConcat(a: string, b: string)
    requires Quiet(a) && Quiet(b)
    ensures Quiet(a + b)
  {
  }

  lemma QuietDash(a: string, b: string)
    requires '-' !in a && '-' !in b && b != ""
    ensures Quiet(a + "-" + b)
  {
    var s := a + "-" + b;
    forall i | 0 <= i < |s| - 1 ensures s[i] != '-' || s[i + 1] != '-' {
      if i < |a| { assert s[i] == a[i] && a[i] in a; } else { assert s[i + 1] == b[i - |a|] && b[i - |a|] in b; }
    }
    assert s[|s| - 1] == b[|b| - 1] && b[|b| - 1] in b;
  }

  lemma QuietPlain(s: string)
    requires '-' !in s
    ensures Quiet(s)
  {
  }

  /** What stands between two markers. */
  function Segment(media: string, body: string): string
  {
    "\r\n" + Block(TextFields(media)) + "\r\n" + WrappedText(body)
  }

  lemma TwoDashes(a: string, b: string, c: string, whole: string)
    requires '-' !in a && '-' !in b && '-' !in c && b != "" && c != ""
    requires whole == a + "-" + b + "-" + c
    ensures Quiet(whole)
  {
    QuietDash(a, b);
    QuietDash("", c);
    QuietConcat(a + "-" + b, "" + "-" + c);
    assert whole == a + "-" + b + ("" + "-" + c);
  }

  lemma KindQuiet(media: string)
    requires TextMedia(media)
    ensures Quiet(FieldLine(TextFields(media)[0]))
  {
    TwoDashes("Content", "Type: " + media + "; charset=utf", "8", FieldLine(TextFields(media)[0]));
  }

  lemma EncodingQuiet(media: string)
    ensures Quiet(FieldLine(TextFields(media)[1]))
  {
    TwoDashes("Content", "Transfer", "Encoding: base64", FieldLine(TextFields(media)[1]));
  }

  lemma AllQuiet(end: string, kind: string, encoding: string, wrapped: string)
    requires Quiet(end) && Quiet(kind) && Quiet(encoding) && Quiet(wrapped)
    ensures Quiet(end + (kind + end + (encoding + end)) + end + wrapped)
  {
    QuietConcat(kind, end);
    QuietConcat(encoding, end);
    QuietConcat(kind + end, encoding + end);
    QuietConcat(end, kind + end + (encoding + end));
    QuietConcat(end + (kind + end + (encoding + end)), end);
    QuietConcat(end + (kind + end + (encoding + end)) + end, wrapped);
  }

  lemma SegmentQuiet(media: string, body: string)
    requires TextMedia(media)
    ensures Quiet(Segment(media, body))
  {
    KindQuiet(media);
    EncodingQuiet(media);
    QuietPlain("\r\n");
    WrappedQuiet(body);
    TwoLines(TextFields(media));
    AllQuiet("\r\n", FieldLine(TextFields(media)[0]), FieldLine(TextFields(media)[1]), WrappedText(body));
  }

  lemma TwoLines(fields: seq<Field>)
    requires |fields| == 2
    ensures Block(fields) == FieldLine(fields[0]) + "\r\n" + (FieldLine(fields[1]) + "\r\n")
    ensures Join(fields) == FieldLine(fields[0]) + "\r\n" + FieldLine(fields[1])
  {
    assert fields[1..][1..] == [];
    assert Block(fields[1..]) == FieldLine(fields[1]) + "\r\n" + "";
  }

  lemma WrappedQuiet(body: string)
    ensures Quiet(WrappedText(body))
  {
    WrappedIsAscii(body);
    var wrapped := WrappedBody(body);
    forall i | 0 <= i < |WrappedText(body)| ensures WrappedText(body)[i] != '-' {
      assert WrappedText(body)[i] == wrapped[i] as char && (MailByte(wrapped[i]) || wrapped[i] in CRLF);
    }
  }

  lemma MarkerFound(quiet: string, marker: string, rest: string)
    requires Quiet(quiet) && |marker| >= 2 && marker[0] == '-' && marker[1] == '-'
    ensures FoundAt(quiet + (marker + rest), marker, Some(|quiet|))
  {
    var s := quiet + (marker + rest);
    assert forall i :: 0 <= i < |quiet| ==> s[i] == quiet[i];
    forall i | 0 <= i < |quiet| ensures !MatchAt(s, marker, i) {
      NoMatch(s, marker, i, if quiet[i] == '-' then 1 else 0);
    }
    assert s[|quiet|..|quiet| + |marker|] == marker;
  }

  lemma SplitStep(quiet: string, marker: string, rest: string)
    requires Quiet(quiet) && |marker| >= 2 && marker[0] == '-' && marker[1] == '-'
    ensures SplitOn(quiet + (marker + rest), marker) == [quiet] + SplitOn(rest, marker)
  {
    var s := quiet + (marker + rest);
    MarkerFound(quiet, marker, rest);
    FoundUnique(s, marker, Some(|quiet|));
    assert s[..|quiet|] == quiet;
    assert s[|quiet| + |marker|..] == rest;
  }

  lemma SplitMore(quiet: string, marker: string, rest: string, parts: seq<string>)
    requires Quiet(quiet) && |marker| >= 2 && marker[0] == '-' && marker[1] == '-' && SplitOn(rest, marker) == parts
    ensures SplitOn(quiet + (marker + rest), marker) == [quiet] + parts
  {
    SplitStep(quiet, marker, rest);
  }

  lemma TwoMarkers(marker: string, a: string, b: string, end: string)
    requires Quiet(a) && Quiet(b) && |end| < |marker| && |marker| >= 2 && marker[0] == '-' && marker[1] == '-'
    ensures SplitOn(a + (marker + (b + (marker + end))), marker) == [a] + ([b] + [end])
  {
    assert Find(end, marker) == None;
    SplitMore(b, marker, end, [end]);
    SplitMore(a, marker, b + (marker + end), [b] + [end]);
  }

  lemma FirstMarker(marker: string, rest: string, parts: seq<string>)
    requires |marker| >= 2 && marker[0] == '-' && marker[1] == '-' && SplitOn(rest, marker) == parts
    ensures SplitOn(marker + rest, marker) == [""] + parts
  {
    assert "" + (marker + rest) == marker + rest;
    SplitMore("", marker, rest, parts);
  }

  /** A body with two quiet segments falls apart into them and what follows the last marker. */
  lemma SplitShape(marker: string, a: string, b: string, end: string, whole: string)
    requires Quiet(a) && Quiet(b) && |end| < |marker| && |marker| >= 2 && marker[0] == '-' && marker[1] == '-'
    requires whole == marker + (a + (marker + (b + (marker + end))))
    ensures SplitOn(whole, marker) == [""] + ([a] + ([b] + [end]))
  {
    TwoMarkers(marker, a, b, end);
    FirstMarker(marker, a + (marker + (b + (marker + end))), [a] + ([b] + [end]));
  }

  lemma BodyShape(boundary: string, text: string, html: string)
    ensures var marker, a, b := "--" + boundary, Segment("text/plain", text), Segment("text/html", html);
      MultipartBody(boundary, text, html) == marker + (a + (marker + (b + (marker + "--\r\n"))))
  {
    PartShape(boundary, "text/plain", text);
    PartShape(boundary, "text/html", html);
    AssociateParts("--", boundary, Segment("text/plain", text), Segment("text/html", html), "--\r\n");
  }

  lemma PartShape(boundary: string, media: string, body: string)
    ensures Part(boundary, media, body) == "--" + boundary + Segment(media, body)
  {
    AssociatePart("--", boundary, "\r\n", Block(TextFields(media)), WrappedText(body));
  }

  lemma AssociatePart(dashes: string, boundary: string, end: string, block: string, wrapped: string)
    ensures dashes + boundary + end + block + end + wrapped == dashes + boundary + (end + block + end + wrapped)
  {
  }

  lemma AssociateParts(dashes: string, boundary: string, a: string, b: string, end: string)
    ensures var marker := dashes + boundary;
      (marker + a) + (marker + b) + dashes + boundary + end == marker + (a + (marker + (b + (marker + end))))
  {
  }

  // ----- Parts -----

  predicate IsBreak(c: char) { c == '\r' || c == '\n' }

  lemma {:induction false} TrimBreaksOf(s: string, breaks: string)
    requires s == "" || !IsBreak(s[|s| - 1])
    requires forall c :: c in breaks ==> IsBreak(c)
    ensures TrimBreaks(s + breaks) == s
  {
    if breaks == "" {
      assert s + breaks == s;
    } else {
      var n := |breaks| - 1;
      assert breaks[n] in breaks;
      assert (s + breaks)[..|s + breaks| - 1] == s + breaks[..n];
      TrimBreaksOf(s, breaks[..n]);
    }
  }

  /** Wrapped text without its last line break. */
  function Unbroken(body: string): string
  {
    var wrapped := WrappedText(body);
    if wrapped == "" then "" else wrapped[..|wrapped| - 2]
  }

  lemma WrappedBytesEnd(body: string)
    ensures body == "" <==> WrappedBody(body) == []
    ensures body != "" ==> |WrappedBody(body)| > 2
    ensures body != "" ==>
      WrappedBody(body)[|WrappedBody(body)| - 2] == 13 && WrappedBody(body)[|WrappedBody(body)| - 1] == 10
    ensures body != "" ==> MailByte(WrappedBody(body)[|WrappedBody(body)| - 3])
  {
    var data := Encode(body);
    EncodedLetters(data);
    var encoded := EncodeBytes(data, Standard);
    assert body == "" <==> encoded == [];
    WrappedBytes(encoded);
    BreakEnd(Wrap(encoded));
  }

  lemma BreakEnd(bytes: Bytes)
    ensures |bytes| > 2 && bytes[|bytes| - 2..] == CRLF ==> bytes[|bytes| - 2] == 13 && bytes[|bytes| - 1] == 10
  {
    if |bytes| > 2 {
      assert bytes[|bytes| - 2] == bytes[|bytes| - 2..][0] && bytes[|bytes| - 1] == bytes[|bytes| - 2..][1];
    }
  }

  lemma TextEnds(bytes: Bytes, text: string)
    requires forall i :: 0 <= i < |bytes| ==> bytes[i] < 128
    requires text == AsText(bytes) && |bytes| > 2 && bytes[|bytes| - 2] == 13 && bytes[|bytes| - 1] == 10
    requires MailByte(bytes[|bytes| - 3])
    ensures text == text[..|text| - 2] + "\r\n" && !IsBreak(text[|text| - 3])
  {
    assert text[|text| - 2] == '\r' && text[|text| - 1] == '\n';
    assert text[|text| - 3] == bytes[|bytes| - 3] as char;
  }

  lemma WrappedEnds(body: string)
    ensures body == "" <==> WrappedText(body) == ""
    ensures body != "" ==> Unbroken(body) != "" && !IsBreak(Unbroken(body)[|Unbroken(body)| - 1])
    ensures body != "" ==> WrappedText(body) == Unbroken(body) + "\r\n"
  {
    WrappedBytesEnd(body);
    WrappedIsAscii(body);
    if body != "" {
      TextEnds(WrappedBody(body), WrappedText(body));
    }
  }

  /** Decoding does not need the last line break. */
  lemma UnbrokenDecodes(body: string)
    ensures DecodeBase64(Encode(Unbroken(body))) == Some(Encode(body))
    ensures DecodeBase64(WrappedBody(body)) == Some(Encode(body))
  {
    var bytes := WrappedBody(body);
    DecodeWrapped(Encode(body));
    WrappedIsAscii(body);
    EncodeAsText(bytes);
    WrappedEnds(body);
    if body != "" {
      EncodeConcat(Unbroken(body), "\r\n");
      CrlfBytes();
      FeedCrlf(START, Encode(Unbroken(body)));
    }
  }

  lemma JoinEnds(media: string)
    ensures var text := Join(TextFields(media)); text != "" && !IsBreak(text[|text| - 1])
  {
    TwoLines(TextFields(media));
    var line := FieldLine(TextFields(media)[1]);
    assert line == "Content-Transfer-Encoding" + ": " + "base64";
    assert line[|line| - 1] == '4';
  }

  /** A segment without its surrounding breaks: headers, blank line and body, or headers alone when the body is
      empty. */
  lemma SegmentTrimmed(media: string, body: string)
    ensures Trimmed(Segment(media, body)) ==
      if body == "" then Join(TextFields(media)) else Block(TextFields(media)) + "\r\n" + Unbroken(body)
  {
    var fields := TextFields(media);
    var inner := Block(fields) + "\r\n" + WrappedText(body);
    StripLeading(inner);
    assert Segment(media, body) == "\r\n" + inner by {
      AssociateSegment("\r\n", Block(fields), WrappedText(body));
    }
    WrappedEnds(body);
    BlockIsJoin(fields);
    JoinEnds(media);
    if body == "" {
      assert inner == Join(fields) + "\r\n\r\n";
      TrimBreaksOf(Join(fields), "\r\n\r\n");
    } else {
      var kept := Block(fields) + "\r\n" + Unbroken(body);
      assert inner == kept + "\r\n";
      assert kept[|kept| - 1] == Unbroken(body)[|Unbroken(body)| - 1];
      TrimBreaksOf(kept, "\r\n");
    }
  }

  lemma StripLeading(inner: string)
    ensures StripBreak("\r\n" + inner) == inner
  {
  }

  lemma AssociateSegment(end: string, block: string, wrapped: string)
    ensures end + block + end + wrapped == end + (block + end + wrapped)
  {
  }

  lemma FindPartThere(body: Bytes, before: Bytes, needle: Bytes, after: Bytes, segment: string, offset: nat)
    requires body == before + needle + after && offset <= |before|
    requires Trimmed(segment) != "" && Encode(Trimmed(segment)) == needle
    ensures FindPart(body, segment, offset).Some? && FindPart(body, segment, offset).value.1 <= |before| + |needle|
  {
    var i := |before| - offset;
    assert body[offset..][i..i + |needle|] == body[|before|..|before| + |needle|] == needle;
    assert MatchAt(body[offset..], needle, i);
  }

  lemma OnePart(body: Bytes, segments: seq<string>, i: nat, offset: nat, slice: (nat, nat), part: Bytes)
    requires i < |segments| && !StartsWith(segments[i], "--") && offset <= |body|
    requires FindPart(body, segments[i], offset) == Some(slice) && part == Encode(Trimmed(segments[i]))
    ensures PartsFrom(body, segments, i, offset) == [part] + PartsFrom(body, segments, i + 1, slice.1)
  {
  }

  /** The slices found for the segments are the trimmed segments, in order. */
  lemma SlicesAreParts(
      body: Bytes, a: Bytes, x: Bytes, b: Bytes, y: Bytes, c: Bytes, first: string, second: string, end: string)
    requires body == a + x + (b + y + c) && !StartsWith(first, "--")
    requires !StartsWith(second, "--") && StartsWith(end, "--")
    requires Trimmed(first) != "" && Encode(Trimmed(first)) == x
    requires Trimmed(second) != "" && Encode(Trimmed(second)) == y
    ensures PartsFrom(body, [first, second, end], 0, 0) == [x, y]
  {
    FindPartThere(body, a, x, b + y + c, first, 0);
    var slice := FindPart(body, first, 0).value;
    assert body == (a + x + b) + y + c;
    FindPartThere(body, a + x + b, y, c, second, slice.1);
    var next := FindPart(body, second, slice.1).value;
    var segments := [first, second, end];
    assert PartsFrom(body, segments, 2, next.1) == [];
    OnePart(body, segments, 1, slice.1, next, y);
    OnePart(body, segments, 0, 0, slice, x);
    assert [x] + ([y] + []) == [x, y];
  }

  lemma {:induction false} TrimIsPrefix(s: string)
    ensures TrimBreaks(s) <= s
  {
    if s != "" && IsBreak(s[|s| - 1]) {
      TrimIsPrefix(s[..|s| - 1]);
    }
  }

  /** A segment is a break, the trimmed text, and more breaks. */
  lemma SegmentShape(segment: string) returns (rest: string)
    requires StartsWith(segment, "\r\n")
    ensures segment == "\r\n" + Trimmed(segment) + rest && !StartsWith(segment, "--")
  {
    TrimIsPrefix(segment[2..]);
    rest := segment[2 + |Trimmed(segment)|..];
    assert segment == segment[..2] + segment[2..];
    assert segment[..2][0] == segment[0];
  }

  lemma EncodeFive(a: string, x: string, b: string, y: string, c: string)
    ensures Encode(a + x + (b + y + c)) == Encode(a) + Encode(x) + (Encode(b) + Encode(y) + Encode(c))
  {
    EncodeConcat(a + x, b + y + c);
    EncodeConcat(a, x);
    EncodeConcat(b + y, c);
    EncodeConcat(b, y);
  }

  lemma RegroupBody(marker: string, break': string, x: string, restX: string, y: string, restY: string, end: string)
    ensures marker + ((break' + x + restX) + (marker + ((break' + y + restY) + (marker + end))))
      == (marker + break') + x + ((restX + marker + break') + y + (restY + marker + end))
  {
  }

  /** The parts of a multipart body whose segments are known. */
  lemma PartsOfBody(marker: string, first: string, second: string, whole: string)
    requires whole == marker + (first + (marker + (second + (marker + "--\r\n"))))
    requires StartsWith(first, "\r\n") && StartsWith(second, "\r\n") && Trimmed(first) != "" && Trimmed(second) != ""
    ensures PartsFrom(Encode(whole), [first, second, "--\r\n"], 0, 0) ==
      [Encode(Trimmed(first)), Encode(Trimmed(second))]
  {
    var restX := SegmentShape(first);
    var restY := SegmentShape(second);
    var x, y, end := Trimmed(first), Trimmed(second), "--\r\n";
    RegroupBody(marker, "\r\n", x, restX, y, restY, end);
    EncodeFive(marker + "\r\n", x, restX + marker + "\r\n", y, restY + marker + end);
    SlicesAreParts(Encode(whole), Encode(marker + "\r\n"), Encode(x), Encode(restX + marker + "\r\n"), Encode(y),
                   Encode(restY + marker + end), first, second, end);
  }

  // ----- One part -----

  lemma NoBlankInLine(line: Bytes, needle: Bytes)
    requires needle != [] && needle[0] !in line
    ensures FoundAt(line, needle, None)
  {
    forall j | 0 <= j <= |line| ensures !MatchAt(line, needle, j) {
      assert j < |line| ==> line[j] in line;
      NoMatch(line, needle, j, 0);
    }
  }

  /** Headers without a blank line after them are not separated. */
  lemma JoinHasNoBlank(first: Bytes, second: Bytes)
    requires 13 !in first && 10 !in first && 13 !in second && 10 !in second && second != []
    ensures SplitHeadersBody(first + (CRLF + second)) == None
  {
    assert second[0] in second;
    NoBlankInLine(second, BLANK_LINE);
    StepPastBreak(second, None);
    FoundSkipFirst(first, CRLF + second, BLANK_LINE, None);
    FoundUnique(first + (CRLF + second), BLANK_LINE, None);
    NoBlankInLine(second, [10, 10]);
    NoMatch(CRLF + second, [10, 10], 0, 0);
    NoMatch(CRLF + second, [10, 10], 1, 1);
    FoundSkip(CRLF, second, [10, 10], None);
    FoundSkipFirst(first, CRLF + second, [10, 10], None);
    FoundUnique(first + (CRLF + second), [10, 10], None);
  }

  lemma TypeNameGood()
    ensures GoodName("Content-Type")
  {
  }

  lemma EncodingNameGood()
    ensures GoodName("Content-Transfer-Encoding")
  {
  }

  lemma TypeValueGood(media: string)
    requires TextMedia(media)
    ensures ValidHeader(media + "; charset=utf-8")
  {
    assert '\r' !in media && '\n' !in media;
    assert '\r' !in "; charset=utf-8" && '\n' !in "; charset=utf-8";
  }

  lemma GoodTextFields(media: string)
    requires TextMedia(media)
    ensures GoodFields(TextFields(media))
  {
    TypeNameGood();
    EncodingNameGood();
    TypeValueGood(media);
    assert ValidHeader("base64");
  }

  function Received(content: Content, media: string, body: string): Content
  {
    if body == "" then content else WithText(content, media, body)
  }

  /** A printed part adds its body to the content; a part with an empty body adds nothing. */
  lemma PartParses(media: string, body: string, content: Content, bound: nat)
    requires TextMedia(media) && |Encode(Trimmed(Segment(media, body)))| <= bound
    ensures ParsePart(Encode(Trimmed(Segment(media, body))), bound, content) == Ok(Received(content, media, body))
  {
    var fields := TextFields(media);
    SegmentTrimmed(media, body);
    GoodTextFields(media);
    if body == "" {
      EmptyPart(media, bound, content);
    } else {
      FullPart(media, body, bound, content);
    }
  }

  lemma EmptyPart(media: string, bound: nat, content: Content)
    requires TextMedia(media) && |Encode(Join(TextFields(media)))| <= bound
    ensures ParsePart(Encode(Join(TextFields(media))), bound, content) == Ok(content)
  {
    var fields := TextFields(media);
    GoodTextFields(media);
    LineBytes(fields[0]);
    LineBytes(fields[1]);
    TwoLines(fields);
    EncodeConcat(FieldLine(fields[0]) + "\r\n", FieldLine(fields[1]));
    EncodeConcat(FieldLine(fields[0]), "\r\n");
    CrlfBytes();
    var first, second := Encode(FieldLine(fields[0])), Encode(FieldLine(fields[1]));
    assert first + CRLF + second == first + (CRLF + second);
    JoinHasNoBlank(first, second);
  }

  lemma FullPart(media: string, body: string, bound: nat, content: Content)
    requires TextMedia(media)
    requires |Encode(Block(TextFields(media)) + "\r\n" + Unbroken(body))| <= bound
    ensures ParsePart(Encode(Block(TextFields(media)) + "\r\n" + Unbroken(body)), bound, content)
      == Ok(WithText(content, media, body))
  {
    var fields := TextFields(media);
    GoodTextFields(media);
    BlockAndBody(fields, Unbroken(body));
    HeadersRoundTrip(fields);
    UnbrokenDecodes(body);
    assert [] + fields == fields;
    TextEntity([], media, Encode(Unbroken(body)), body, content);
  }

  lemma EncodeWithBreak(block: string, body: string)
    ensures Encode(block + "\r\n" + body) == Encode(block) + (CRLF + Encode(body))
  {
    EncodeConcat(block + "\r\n", body);
    EncodeConcat(block, "\r\n");
    CrlfBytes();
    assert Encode(block) + CRLF + Encode(body) == Encode(block) + (CRLF + Encode(body));
  }

  lemma BlockAndBody(fields: seq<Field>, body: string)
    requires fields != [] && GoodFields(fields)
    ensures SplitHeadersBody(Encode(Block(fields) + "\r\n" + body)) == Some((Encode(Join(fields)), Encode(body)))
  {
    EncodeWithBreak(Block(fields), body);
    BlockSeparates(fields, Encode(body));
  }

  // ----- The multipart headers -----

  predicate HexText(s: string) { s != "" && forall i :: 0 <= i < |s| ==> '0' <= s[i] <= '9' || 'a' <= s[i] <= 'f' }

  /** Dates and UUIDs have no line breaks, and the simple form of a UUID is hexadecimal. */
  predicate Stamped(stamp: Stamp)
  {
    ValidHeader(stamp.date) && ValidHeader(stamp.messageUuid) && HexText(stamp.boundaryUuid)
  }

  lemma QuotesTrimmed(s: string)
    requires s != "" && s[0] != '"' && s[|s| - 1] != '"'
    ensures TrimQuotes("\"" + s + "\"") == s
  {
    assert ("\"" + s + "\"")[1..] == s + "\"";
    assert (s + "\"")[..|s|] == s;
    assert TrimQuotesStart("\"" + s + "\"") == s + "\"";
    assert (s + "\"")[|s + "\""| - 1] == '"';
    assert TrimQuotesEnd(s + "\"") == TrimQuotesEnd(s) == s;
  }

  /** Characters of a boundary. */
  predicate BoundaryChars(s: string)
  {
    s != "" && s[0] != '"' && s[|s| - 1] != '"' && forall c :: c in s ==> c !in {';', '"', '\r', '\n'}
  }

  lemma BoundaryGood(stamp: Stamp)
    requires Stamped(stamp)
    ensures BoundaryChars(Boundary(stamp)) && |Boundary(stamp)| > 14
  {
    var prefix, uuid := "quickmail-alt-", stamp.boundaryUuid;
    forall c | c in Boundary(stamp) ensures c !in {';', '"', '\r', '\n'} {
      assert c in prefix || c in uuid;
    }
    assert Boundary(stamp)[0] == prefix[0] && Boundary(stamp)[|Boundary(stamp)| - 1] == uuid[|uuid| - 1];
  }

  function Quoted(s: string): string { "\"" + s + "\"" }

  lemma MultipartType(boundary: string)
    requires BoundaryChars(boundary)
    ensures var value := MultipartField(boundary).value;
      && Trim(value) == value && ValidHeader(value)
      && StartsWith(MediaType(value), "multipart/") && Parameter(value, "boundary") == Some(boundary)
  {
    var value, quoted := MultipartField(boundary).value, Quoted(boundary);
    assert value == "multipart/alternative" + [';'] + (" " + ("boundary" + ['='] + quoted));
    assert forall c :: c in quoted ==> c == '"' || c in boundary;
    ContentType("multipart/alternative", "boundary", quoted, "boundary");
    TrimIdentity(quoted);
    QuotesTrimmed(boundary);
    MultipartMedia();
    ValueEdges(value, boundary);
  }

  lemma MultipartMedia()
    ensures StartsWith(LowerAscii(Trim("multipart/alternative")), "multipart/")
  {
    TrimIdentity("multipart/alternative");
    LowerOf("multipart/alternative", "multipart/alternative");
    assert "multipart/alternative"[..10] == "multipart/";
  }

  lemma ValueEdges(value: string, boundary: string)
    requires value == MultipartField(boundary).value && BoundaryChars(boundary)
    ensures Trim(value) == value && ValidHeader(value)
  {
    var prefix := "multipart/alternative; boundary=\"";
    assert value == prefix + boundary + "\"";
    assert '\r' !in prefix && '\n' !in prefix;
    assert value[0] == prefix[0] && value[|value| - 1] == '"';
    TrimIdentity(value);
  }

  lemma LastOne(before: seq<Field>, kind: Field)
    requires Neutral(before) && |kind.name| == 12 && LowerAscii(kind.name) == "content-type"
    ensures var h := Pairs(before + [kind]);
      Lookup(h, "content-type") == Some(Trim(kind.value)) && Lookup(h, "bcc") == None
  {
    assert before + [kind] == before + [kind] + [];
    KeptKey(before, kind, []);
    AbsentKey(before + [kind], "bcc");
  }

  lemma TwoParts(text: string, html: string, bound: nat)
    requires |Encode(Trimmed(Segment("text/plain", text)))| <= bound
    requires |Encode(Trimmed(Segment("text/html", html)))| <= bound
    ensures var x, y := Encode(Trimmed(Segment("text/plain", text))), Encode(Trimmed(Segment("text/html", html)));
      ParseParts([x, y], bound, NO_CONTENT) == Ok(Received(Received(NO_CONTENT, "text/plain", text), "text/html", html))
  {
    var x, y := Encode(Trimmed(Segment("text/plain", text))), Encode(Trimmed(Segment("text/html", html)));
    var first := Received(NO_CONTENT, "text/plain", text);
    PartParses("text/plain", text, NO_CONTENT, bound);
    PartParses("text/html", html, first, bound);
    assert [x, y][..1] == [x];
    assert ParseParts([x], bound, NO_CONTENT) == Ok(first);
  }

  lemma SegmentKept(media: string, body: string)
    ensures StartsWith(Segment(media, body), "\r\n") && Trimmed(Segment(media, body)) != ""
  {
    SegmentTrimmed(media, body);
    JoinEnds(media);
  }

  /** The printed multipart body splits into its two parts. */
  lemma PartsOfMultipart(boundary: string, text: string, html: string)
    requires |boundary| > 2
    ensures SplitMultipart(Encode(MultipartBody(boundary, text, html)), boundary)
      == [Encode(Trimmed(Segment("text/plain", text))), Encode(Trimmed(Segment("text/html", html)))]
  {
    var whole, marker := MultipartBody(boundary, text, html), "--" + boundary;
    var a, b, end := Segment("text/plain", text), Segment("text/html", html), "--\r\n";
    LossyEncode(whole);
    BodyShape(boundary, text, html);
    SegmentQuiet("text/plain", text);
    SegmentQuiet("text/html", html);
    SplitShape(marker, a, b, end, whole);
    SegmentKept("text/plain", text);
    SegmentKept("text/html", html);
    PartsOfBody(marker, a, b, whole);
    ThreeAfterFirst(a, b, end);
  }

  lemma ThreeAfterFirst(a: string, b: string, c: string)
    ensures ([""] + ([a] + ([b] + [c])))[1..] == [a, b, c]
  {
  }

  /** A printed multipart entity parses to its two bodies. */
  lemma MultipartEntity(before: seq<Field>, boundary: string, text: string, html: string)
    requires Neutral(before) && BoundaryChars(boundary) && |boundary| > 2
    ensures ParseEntity(Pairs(before + [MultipartField(boundary)]),
      Encode(MultipartBody(boundary, text, html)), NO_CONTENT)
      == Ok(Received(Received(NO_CONTENT, "text/plain", text), "text/html", html))
  {
    var body := Encode(MultipartBody(boundary, text, html));
    TypeKey();
    LastOne(before, MultipartField(boundary));
    MultipartType(boundary);
    PartsOfMultipart(boundary, text, html);
    var parts := SplitMultipart(body, boundary);
    assert |parts[0]| <= |body| && |parts[1]| <= |body|;
    TwoParts(text, html, |body|);
  }

  // ----- The envelope -----

  lemma {:induction false} EscapedValid(s: string)
    requires ValidHeader(s)
    ensures ValidHeader(EscapeQuotes(s))
  {
    if s != "" {
      assert s[0] in s && forall c :: c in s[1..] ==> c in s;
      EscapedValid(s[1..]);
    }
  }

  lemma FormattedValid(address: Address)
    requires AddressSafe(address)
    ensures ValidHeader(FormatAddress(address))
  {
    EscapedValid(address.name);
  }

  lemma {:induction false} AllFormattedValid(addresses: seq<Address>)
    requires forall i :: 0 <= i < |addresses| ==> AddressSafe(addresses[i])
    ensures ValidHeader(FormatAddresses(addresses))
  {
    if addresses != [] {
      FormattedValid(addresses[0]);
      AllFormattedValid(addresses[1..]);
    }
  }

  lemma {:induction false} CheckedSafe(addresses: seq<Address>, i: nat)
    requires CheckAddresses(addresses) == None && i < |addresses|
    ensures AddressSafe(addresses[i])
  {
    if i > 0 {
      CheckedSafe(addresses[1..], i - 1);
    }
  }

  /** A name that can be printed and that no parser decision depends on. */
  predicate PlainName(name: string) { GoodName(name) && |name| != 19 && |name| != 3 }

  lemma AddressNames()
    ensures PlainName("From") && PlainName("To") && PlainName("Cc")
  {
  }

  lemma SubjectNames()
    ensures PlainName("Subject") && PlainName("Date")
  {
  }

  lemma LongNames()
    ensures PlainName("Message-ID") && PlainName("MIME-Version")
  {
  }

  predicate Fits(fields: seq<Field>) { GoodFields(fields) && Neutral(fields) }

  lemma FitsAppend(before: seq<Field>, name: string, value: string)
    requires Fits(before) && PlainName(name) && ValidHeader(value)
    ensures Fits(before + [Field(name, value)])
  {
  }

  lemma AllSafe(from: Address, message: Outgoing)
    requires CheckAddresses([from] + message.to + message.cc + message.bcc) == None
    ensures AddressSafe(from)
    ensures forall i :: 0 <= i < |message.to| ==> AddressSafe(message.to[i])
    ensures forall i :: 0 <= i < |message.cc| ==> AddressSafe(message.cc[i])
  {
    var all := [from] + message.to + message.cc + message.bcc;
    var n := |message.to|;
    CheckedSafe(all, 0);
    forall i | 0 <= i < n ensures AddressSafe(message.to[i]) {
      CheckedSafe(all, 1 + i);
      assert all[1 + i] == message.to[i];
    }
    forall i | 0 <= i < |message.cc| ensures AddressSafe(message.cc[i]) {
      CheckedSafe(all, 1 + n + i);
      assert all[1 + n + i] == message.cc[i];
    }
  }

  /** An accepted message has well-formed header fields. */
  lemma EnvelopeGood(from: Address, message: Outgoing, stamp: Stamp)
    requires Build(from, message, stamp).Ok? && Stamped(stamp)
    ensures Fits(EnvelopeFields(from, message, stamp)) && EnvelopeFields(from, message, stamp) != []
  {
    AllSafe(from, message);
    FormattedValid(from);
    AllFormattedValid(message.to);
    AllFormattedValid(message.cc);
    MessageIdValid(stamp.messageUuid);
    var id := "<" + stamp.messageUuid + "@quickmail.local>";
    FieldsGood(FormatAddress(from), FormatAddresses(message.to), message.cc == [], FormatAddresses(message.cc),
               message.subject, stamp.date, id, EnvelopeFields(from, message, stamp));
  }

  lemma FieldsGood(
      from: string, to: string, noCc: bool, cc: string, subject: string, date: string, id: string, all: seq<Field>)
    requires ValidHeader(from) && ValidHeader(to) && ValidHeader(cc)
    requires ValidHeader(subject) && ValidHeader(date) && ValidHeader(id)
    requires all == [Field("From", from), Field("To", to)] + (if noCc then [] else [Field("Cc", cc)])
      + [Field("Subject", subject), Field("Date", date), Field("Message-ID", id), Field("MIME-Version", "1.0")]
    ensures Fits(all)
  {
    AddressNames();
    SubjectNames();
    LongNames();
    VersionValid();
    FitsAppend([], "From", from);
    FitsAppend([] + [Field("From", from)], "To", to);
    var head := [] + [Field("From", from)] + [Field("To", to)];
    FitsAppend(head, "Cc", cc);
    var more := if noCc then head else head + [Field("Cc", cc)];
    FitsAppend(more, "Subject", subject);
    FitsAppend(more + [Field("Subject", subject)], "Date", date);
    FitsAppend(more + [Field("Subject", subject)] + [Field("Date", date)], "Message-ID", id);
    var named := more + [Field("Subject", subject)] + [Field("Date", date)] + [Field("Message-ID", id)];
    FitsAppend(named, "MIME-Version", "1.0");
    assert all == named + [Field("MIME-Version", "1.0")];
  }

  lemma VersionValid()
    ensures ValidHeader("1.0")
  {
  }

  lemma MessageIdValid(uuid: string)
    requires ValidHeader(uuid)
    ensures ValidHeader("<" + uuid + "@quickmail.local>")
  {
    assert '\r' !in "@quickmail.local>" && '\n' !in "@quickmail.local>";
  }

  // ----- Main results -----

  /** The content a message arrives with. */
  function Arrived(message: Outgoing): Content
  {
    match (message.text, message.html)
    case (Some(text), Some(html)) => Received(Received(NO_CONTENT, "text/plain", text), "text/html", html)
    case (Some(text), None) => WithText(NO_CONTENT, "text/plain", text)
    case (None, Some(html)) => WithText(NO_CONTENT, "text/html", html)
    case (None, None) => WithText(NO_CONTENT, "text/plain", "")
  }

  lemma GoodAppend(a: seq<Field>, b: seq<Field>)
    requires GoodFields(a) && GoodFields(b)
    ensures GoodFields(a + b)
  {
  }

  lemma SingleParses(fields: seq<Field>, media: string, body: string)
    requires GoodFields(fields) && Neutral(fields) && TextMedia(media)
    requires |Encode(SingleBody(fields, media, body))| <= MAX_MAIL_MESSAGE_BYTES
    ensures Parse(Encode(SingleBody(fields, media, body)))
      == Ok(ParsedMime(Pairs(fields + TextFields(media)), WithText(NO_CONTENT, media, body)))
    ensures Lookup(Pairs(fields + TextFields(media)), "bcc") == None
  {
    var all := fields + TextFields(media);
    GoodTextFields(media);
    GoodAppend(fields, TextFields(media));
    BlockAndBody(all, WrappedText(body));
    HeadersRoundTrip(all);
    WrappedIsAscii(body);
    EncodeAsText(WrappedBody(body));
    UnbrokenDecodes(body);
    TextEntity(fields, media, WrappedBody(body), body, NO_CONTENT);
    TextHeaders(fields, media);
  }

  lemma MultipartParses(fields: seq<Field>, boundary: string, text: string, html: string)
    requires GoodFields(fields) && Neutral(fields) && BoundaryChars(boundary) && |boundary| > 2
    requires var whole := Block(fields + [MultipartField(boundary)]) + "\r\n" + MultipartBody(boundary, text, html);
      |Encode(whole)| <= MAX_MAIL_MESSAGE_BYTES
    ensures Parse(Encode(Block(fields + [MultipartField(boundary)]) + "\r\n" + MultipartBody(boundary, text, html)))
      == Ok(ParsedMime(Pairs(fields + [MultipartField(boundary)]),
                       Received(Received(NO_CONTENT, "text/plain", text), "text/html", html)))
    ensures Lookup(Pairs(fields + [MultipartField(boundary)]), "bcc") == None
  {
    var kind := MultipartField(boundary);
    MultipartType(boundary);
    TypeNameGood();
    GoodAppend(fields, [kind]);
    BlockAndBody(fields + [kind], MultipartBody(boundary, text, html));
    HeadersRoundTrip(fields + [kind]);
    MultipartEntity(fields, boundary, text, html);
    TypeKey();
    LastOne(fields, kind);
  }

  /** Parsing undoes building: every accepted message within the size limit parses, without attachments and without Bcc;
      its bodies come back exactly as they were given if and only if there is a body and, when there are two, neither is
      empty (an empty one of two is lost, and a message with none gets an empty text). A message over the limit is
      refused. */
  lemma ParseUndoesBuild(from: Address, message: Outgoing, stamp: Stamp)
    requires Build(from, message, stamp).Ok? && Stamped(stamp)
    ensures var bytes := Build(from, message, stamp).value;
      if |bytes| > MAX_MAIL_MESSAGE_BYTES then Parse(bytes) == Err(MessageTooLarge)
      else
        && Parse(bytes).Ok? && Parse(bytes).value.content == Arrived(message)
        && Parse(bytes).value.content.attachments == [] && Lookup(Parse(bytes).value.headers, "bcc") == None
        && ((Parse(bytes).value.content.text == message.text && Parse(bytes).value.content.html == message.html) <==>
              && (message.text.Some? || message.html.Some?)
              && (message.text.Some? && message.html.Some? ==> message.text.value != "" && message.html.value != ""))
  {
    var fields := EnvelopeFields(from, message, stamp);
    EnvelopeGood(from, message, stamp);
    BoundaryGood(stamp);
    if |Build(from, message, stamp).value| <= MAX_MAIL_MESSAGE_BYTES {
      match (message.text, message.html)
      case (Some(text), Some(html)) => MultipartParses(fields, Boundary(stamp), text, html);
      case (Some(text), None) => SingleParses(fields, "text/plain", text);
      case (None, Some(html)) => SingleParses(fields, "text/html", html);
      case (None, None) => SingleParses(fields, "text/plain", "");
    }
  }
}
