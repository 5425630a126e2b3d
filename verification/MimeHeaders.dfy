/** Header blocks survive printing and parsing. */
module MimeHeaders {
  import opened Wrappers
  import opened Utf8
  import opened Base64
  import opened Text
  import opened Mime

  // ----- Finding -----

  /** What `Find` promises, without how it searches. */
  predicate FoundAt<T(==)>(hay: seq<T>, needle: seq<T>, r: Option<nat>)
  {
    match r
    case Some(i) => MatchAt(hay, needle, i) && forall j :: 0 <= j < i ==> !MatchAt(hay, needle, j)
    case None => forall j :: 0 <= j <= |hay| ==> !MatchAt(hay, needle, j)
  }

  lemma FoundUnique<T>(hay: seq<T>, needle: seq<T>, r: Option<nat>)
    requires FoundAt(hay, needle, r)
    ensures Find(hay, needle) == r
  {
    var s := Find(hay, needle);
    assert FoundAt(hay, needle, s);
    assert s.Some? ==> MatchAt(hay, needle, s.value) && s.value <= |hay|;
  }

  lemma MatchAfter<T>(prefix: seq<T>, hay: seq<T>, needle: seq<T>, i: nat)
    ensures MatchAt(prefix + hay, needle, |prefix| + i) <==> MatchAt(hay, needle, i)
  {
    if i + |needle| <= |hay| {
      assert (prefix + hay)[|prefix| + i..|prefix| + i + |needle|] == hay[i..i + |needle|];
    }
  }

  function Shift(n: nat, r: Option<nat>): Option<nat> { match r case Some(i) => Some(n + i) case None => None }

  /** A prefix in which the needle cannot begin does not change where it is found. */
  lemma FoundSkip<T>(prefix: seq<T>, hay: seq<T>, needle: seq<T>, r: Option<nat>)
    requires FoundAt(hay, needle, r)
    requires forall i :: 0 <= i < |prefix| ==> !MatchAt(prefix + hay, needle, i)
    ensures FoundAt(prefix + hay, needle, Shift(|prefix|, r))
  {
    if r.Some? {
      MatchAfter(prefix, hay, needle, r.value);
    }
    var end := if r.Some? then |prefix| + r.value else |prefix + hay| + 1;
    forall j | 0 <= j < end ensures !MatchAt(prefix + hay, needle, j) {
      if j >= |prefix| { MatchAfter(prefix, hay, needle, j - |prefix|); }
    }
  }

  lemma NoMatch<T>(hay: seq<T>, needle: seq<T>, i: nat, k: nat)
    requires k < |needle| && (i + k < |hay| ==> hay[i + k] != needle[k])
    ensures !MatchAt(hay, needle, i)
  {
    assert i + |needle| <= |hay| ==> hay[i..i + |needle|][k] == hay[i + k];
  }

  lemma FoundSkipFirst<T>(prefix: seq<T>, hay: seq<T>, needle: seq<T>, r: Option<nat>)
    requires needle != [] && needle[0] !in prefix && FoundAt(hay, needle, r)
    ensures FoundAt(prefix + hay, needle, Shift(|prefix|, r))
  {
    forall i | 0 <= i < |prefix| ensures !MatchAt(prefix + hay, needle, i) {
      assert prefix[i] in prefix;
      NoMatch(prefix + hay, needle, i, 0);
    }
    FoundSkip(prefix, hay, needle, r);
  }

  // ----- Encoded text without breaks -----

  lemma {:induction false} EncodeAvoids(s: string, b: byte)
    requires b < 128 && b as char !in s
    ensures b !in Encode(s)
  {
    if s != "" {
      EncodeAvoids(s[1..], b);
      assert s[0] in s && s[0] != b as char;
    }
  }

  lemma CrlfBytes()
    ensures Encode("\r\n") == CRLF
  {
    EncodeAscii("\r\n");
  }

  /** A name that can stand before a colon. */
  predicate GoodName(name: string)
  {
    name != "" && ':' !in name && ValidHeader(name) && !IsWhitespace(name[0]) && !IsWhitespace(name[|name| - 1])
  }

  predicate GoodField(field: Field) { GoodName(field.name) && ValidHeader(field.value) }

  predicate GoodFields(fields: seq<Field>) { forall i :: 0 <= i < |fields| ==> GoodField(fields[i]) }

  lemma LineBytes(field: Field)
    requires GoodField(field)
    ensures 13 !in Encode(FieldLine(field)) && 10 !in Encode(FieldLine(field)) && Encode(FieldLine(field)) != []
  {
    var line := FieldLine(field);
    assert forall c :: c in line ==> c in field.name || c in ": " || c in field.value;
    EncodeAvoids(line, 13);
    EncodeAvoids(line, 10);
  }

  lemma EncodeBlock(fields: seq<Field>)
    requires fields != []
    ensures Encode(Block(fields)) == Encode(FieldLine(fields[0])) + CRLF + Encode(Block(fields[1..]))
  {
    EncodeConcat(FieldLine(fields[0]) + "\r\n", Block(fields[1..]));
    EncodeConcat(FieldLine(fields[0]), "\r\n");
    CrlfBytes();
  }

  lemma StepPastBreak(rest: Bytes, r: Option<nat>)
    requires rest != [] && rest[0] != 13 && FoundAt(rest, BLANK_LINE, r)
    ensures FoundAt(CRLF + rest, BLANK_LINE, Shift(2, r))
  {
    NoMatch(CRLF + rest, BLANK_LINE, 0, 2);
    NoMatch(CRLF + rest, BLANK_LINE, 1, 0);
    FoundSkip(CRLF, rest, BLANK_LINE, r);
  }

  /** The last line: the needle is its break and the blank line after it. */
  lemma BlankAfterLine(line: Bytes, rest: Bytes)
    requires 13 !in line
    ensures FoundAt(line + (CRLF + (CRLF + rest)), BLANK_LINE, Some(|line|))
  {
    var tail := CRLF + (CRLF + rest);
    assert tail[0..4] == BLANK_LINE;
    FoundSkipFirst(line, tail, BLANK_LINE, Some(0));
  }

  lemma BlankPastLine(line: Bytes, more: Bytes, i: nat)
    requires 13 !in line && more != [] && more[0] != 13 && FoundAt(more, BLANK_LINE, Some(i))
    ensures FoundAt(line + (CRLF + more), BLANK_LINE, Some(|line| + 2 + i))
  {
    StepPastBreak(more, Some(i));
    FoundSkipFirst(line, CRLF + more, BLANK_LINE, Some(2 + i));
  }

  lemma Regroup(line: Bytes, block: Bytes, tail: Bytes)
    ensures line + CRLF + block + tail == line + (CRLF + (block + tail))
    ensures line + CRLF + [] + tail == line + (CRLF + tail)
  {
  }

  /** The blank line found first is the one after the last header. */
  lemma {:induction false} BlankAfterBlock(fields: seq<Field>, rest: Bytes)
    requires fields != [] && GoodFields(fields)
    ensures |Encode(Block(fields))| >= 2
    ensures FoundAt(Encode(Block(fields)) + (CRLF + rest), BLANK_LINE, Some(|Encode(Block(fields))| - 2))
  {
    var line, block := Encode(FieldLine(fields[0])), Encode(Block(fields[1..]));
    LineBytes(fields[0]);
    EncodeBlock(fields);
    Regroup(line, block, CRLF + rest);
    if |fields| == 1 {
      assert Block(fields[1..]) == "" && block == [];
      BlankAfterLine(line, rest);
    } else {
      BlankAfterBlock(fields[1..], rest);
      FirstByte(fields[1..]);
      BlankPastLine(line, block + (CRLF + rest), |block| - 2);
    }
  }

  lemma FirstByte(fields: seq<Field>)
    requires fields != [] && GoodFields(fields)
    ensures Encode(Block(fields)) != [] && Encode(Block(fields))[0] != 13
  {
    LineBytes(fields[0]);
    EncodeBlock(fields);
    assert Encode(FieldLine(fields[0]))[0] in Encode(FieldLine(fields[0]));
  }

  // ----- Lines -----

  /** The header lines with breaks between them only. */
  function Join(fields: seq<Field>): string
    requires fields != []
  {
    if |fields| == 1 then FieldLine(fields[0]) else FieldLine(fields[0]) + "\r\n" + Join(fields[1..])
  }

  lemma {:induction false} BlockIsJoin(fields: seq<Field>)
    requires fields != []
    ensures Block(fields) == Join(fields) + "\r\n"
  {
    if |fields| == 1 {
      assert Block(fields[1..]) == "";
      assert Block(fields) == FieldLine(fields[0]) + "\r\n";
    } else {
      BlockIsJoin(fields[1..]);
      assert Block(fields) == FieldLine(fields[0]) + "\r\n" + (Join(fields[1..]) + "\r\n");
    }
  }

  lemma {:induction false} ReplaceSkip(s: string, rest: string)
    requires '\r' !in s
    ensures ReplaceCrlf(s + rest) == s + ReplaceCrlf(rest)
  {
    if s == "" {
      assert s + rest == rest;
    } else {
      assert s[0] in s && s[0] != '\r';
      assert (s + rest)[1..] == s[1..] + rest;
      ReplaceSkip(s[1..], rest);
    }
  }

  function LineSeq(fields: seq<Field>): seq<string>
  {
    seq(|fields|, i requires 0 <= i < |fields| => FieldLine(fields[i]))
  }

  lemma GoodLine(field: Field)
    requires GoodField(field)
    ensures '\r' !in FieldLine(field) && '\n' !in FieldLine(field)
    ensures FieldLine(field) != "" && !Folded(FieldLine(field))
  {
    var line := FieldLine(field);
    assert forall c :: c in line ==> c in field.name || c in ": " || c in field.value;
    assert line[0] == field.name[0];
  }

  lemma {:induction false} SplitJoin(fields: seq<Field>)
    requires fields != [] && GoodFields(fields)
    ensures Split(ReplaceCrlf(Join(fields)), '\n') == LineSeq(fields)
  {
    var line := FieldLine(fields[0]);
    GoodLine(fields[0]);
    if |fields| == 1 {
      ReplaceSkip(line, "");
      assert line + "" == line;
      SplitWithout(line, '\n');
    } else {
      SplitJoin(fields[1..]);
      var rest := ReplaceCrlf(Join(fields[1..]));
      ReplaceSkip(line, "\r\n" + Join(fields[1..]));
      assert ("\r\n" + Join(fields[1..]))[2..] == Join(fields[1..]);
      assert line + "\r\n" + Join(fields[1..]) == line + ("\r\n" + Join(fields[1..]));
      assert line + ("\n" + rest) == line + ['\n'] + rest;
      SplitAt(line, '\n', rest);
      assert LineSeq(fields) == [line] + LineSeq(fields[1..]);
    }
  }

  lemma LinesOfJoin(fields: seq<Field>)
    requires fields != [] && GoodFields(fields)
    ensures Lines(ReplaceCrlf(Join(fields))) == LineSeq(fields)
  {
    SplitJoin(fields);
    var lines := LineSeq(fields);
    forall i | 0 <= i < |lines| ensures lines[i] != "" && StripCr(lines[i]) == lines[i] {
      GoodLine(fields[i]);
      assert lines[i][|lines[i]| - 1] in lines[i];
    }
  }

  lemma {:induction false} UnfoldPlain(lines: seq<string>)
    requires forall i :: 0 <= i < |lines| ==> !Folded(lines[i])
    ensures Unfold(lines) == Some(lines)
  {
    if lines != [] {
      UnfoldPlain(lines[..|lines| - 1]);
      assert lines[..|lines| - 1] + [lines[|lines| - 1]] == lines;
    }
  }

  // ----- Names and values -----

  function KeyOf(field: Field): string { LowerAscii(field.name) }

  function Pairs(fields: seq<Field>): Headers
  {
    if fields == [] then map[]
    else
      var last := fields[|fields| - 1];
      Pairs(fields[..|fields| - 1])[KeyOf(last) := Trim(last.value)]
  }

  lemma LineSplits(field: Field)
    requires GoodField(field)
    ensures SplitOnce(FieldLine(field), ':') == Some((field.name, " " + field.value))
    ensures Trim(field.name) == field.name && Trim(" " + field.value) == Trim(field.value)
  {
    assert FieldLine(field) == field.name + [':'] + (" " + field.value);
    SplitOnceAt(field.name, ':', " " + field.value);
    TrimIdentity(field.name);
    TrimPadded(field.value);
  }

  lemma {:induction false} CollectFields(fields: seq<Field>)
    requires GoodFields(fields)
    ensures Collect(LineSeq(fields)) == Some(Pairs(fields))
  {
    if fields != [] {
      var shorter, last := fields[..|fields| - 1], fields[|fields| - 1];
      CollectFields(shorter);
      assert LineSeq(fields)[..|LineSeq(fields)| - 1] == LineSeq(shorter);
      assert LineSeq(fields)[|LineSeq(fields)| - 1] == FieldLine(last);
      LineSplits(last);
    }
  }

  lemma LinesNotFolded(fields: seq<Field>)
    requires GoodFields(fields)
    ensures forall i :: 0 <= i < |LineSeq(fields)| ==> !Folded(LineSeq(fields)[i])
  {
    forall i | 0 <= i < |fields| ensures !Folded(LineSeq(fields)[i]) {
      GoodLine(fields[i]);
    }
  }

  /** A printed block parses to its fields, the values trimmed, names in lower case. */
  lemma HeadersRoundTrip(fields: seq<Field>)
    requires fields != [] && GoodFields(fields)
    ensures ParseHeaders(Encode(Join(fields))) == Ok(Pairs(fields))
  {
    DecodeEncode(Join(fields));
    LinesOfJoin(fields);
    LinesNotFolded(fields);
    UnfoldPlain(LineSeq(fields));
    CollectFields(fields);
  }

  /** And the parser separates it from whatever body follows. */
  lemma BlockSeparates(fields: seq<Field>, body: Bytes)
    requires fields != [] && GoodFields(fields)
    ensures SplitHeadersBody(Encode(Block(fields)) + (CRLF + body)) == Some((Encode(Join(fields)), body))
  {
    BlankAfterBlock(fields, body);
    FoundUnique(Encode(Block(fields)) + (CRLF + body), BLANK_LINE, Some(|Encode(Block(fields))| - 2));
    BlockIsJoin(fields);
    EncodeConcat(Join(fields), "\r\n");
    CrlfBytes();
    var message := Encode(Block(fields)) + (CRLF + body);
    var i := |Encode(Join(fields))|;
    assert message == Encode(Join(fields)) + CRLF + CRLF + body;
    assert message[..i] == Encode(Join(fields));
    assert message[i + 4..] == body;
  }
}
