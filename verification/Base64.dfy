/** The two base64 encoders and the decoder they share. Encoded text is ASCII and is modelled as its bytes. */
module Base64 {
  import opened Wrappers
  import opened Utf8
  import opened Arithmetic

  const PAD: byte := 61
  const LINE_WIDTH: nat := 76

  /** The mail alphabet of section 6.8 of RFC 2045, or the URL-safe one of section 5 of RFC 4648 without padding. */
  datatype Alphabet = Standard | UrlSafe

  function Letter(alphabet: Alphabet, digit: nat): byte
    requires digit < 64
  {
    if digit < 26 then 65 + digit
    else if digit < 52 then 97 + (digit - 26)
    else if digit < 62 then 48 + (digit - 52)
    else if digit == 62 then (if alphabet.Standard? then 43 else 45)
    else (if alphabet.Standard? then 47 else 95)
  }

  function DigitOf(b: byte): (digit: Option<nat>)
    ensures digit.Some? ==> digit.value < 64
  {
    if 65 <= b <= 90 then Some(b as nat - 65)
    else if 97 <= b <= 122 then Some(b as nat - 97 + 26)
    else if 48 <= b <= 57 then Some(b as nat - 48 + 52)
    else if b == 43 || b == 45 then Some(62)
    else if b == 47 || b == 95 then Some(63)
    else None
  }

  predicate AsciiWhitespace(b: byte) { b == 9 || b == 10 || b == 12 || b == 13 || b == 32 }

  // ----- Encoding -----

  function ByteAt(chunk: Bytes, i: nat): nat { if i < |chunk| then chunk[i] as nat else 0 }

  /** The 24-bit value of a chunk of at most three bytes. */
  function ChunkValue(chunk: Bytes): (value: nat)
    ensures value < 16777216
  {
    ByteAt(chunk, 0) * 65536 + ByteAt(chunk, 1) * 256 + ByteAt(chunk, 2)
  }

  function Padding(alphabet: Alphabet): Bytes { if alphabet.Standard? then [PAD] else [] }

  /** The letters of n bytes in four digits. */
  function Letters(alphabet: Alphabet, n: nat, x: nat, y: nat, z: nat, w: nat): Bytes
    requires x < 64 && y < 64 && z < 64 && w < 64
  {
    [Letter(alphabet, x), Letter(alphabet, y)]
    + (if n > 1 then [Letter(alphabet, z)] else Padding(alphabet))
    + (if n > 2 then [Letter(alphabet, w)] else Padding(alphabet))
  }

  function EncodeChunk(chunk: Bytes, alphabet: Alphabet): Bytes
  {
    var value := ChunkValue(chunk);
    Letters(alphabet, |chunk|, value / 262144 % 64, value / 4096 % 64, value / 64 % 64, value % 64)
  }

  function ChunkEncoder(alphabet: Alphabet): Bytes -> Bytes { chunk => EncodeChunk(chunk, alphabet) }

  /** Chunks of three bytes, the last one perhaps shorter. */
  function EncodeChunks(data: Bytes, encode: Bytes -> Bytes): Bytes
  {
    if data == [] then []
    else if |data| <= 3 then encode(data)
    else encode(data[..3]) + EncodeChunks(data[3..], encode)
  }

  function EncodeBytes(data: Bytes, alphabet: Alphabet): Bytes { EncodeChunks(data, ChunkEncoder(alphabet)) }

  const CRLF: Bytes := [13, 10]

  function Wrap(encoded: Bytes): Bytes
  {
    if encoded == [] then []
    else if |encoded| <= LINE_WIDTH then encoded + CRLF
    else encoded[..LINE_WIDTH] + CRLF + Wrap(encoded[LINE_WIDTH..])
  }

  method EncodeAll(data: Bytes, alphabet: Alphabet) returns (encoded: Bytes)
    ensures encoded == EncodeBytes(data, alphabet)
  {
    encoded := [];
    var i := 0;
    while i < |data|
      invariant i <= |data| && encoded + EncodeBytes(data[i..], alphabet) == EncodeBytes(data, alphabet)
    {
      var end := if i + 3 <= |data| then i + 3 else |data|;
      var chunk := data[i..end];
      ghost var rest := data[i..];
      assert |rest| > 3 ==> rest[..3] == chunk && rest[3..] == data[end..];
      assert |rest| <= 3 ==> rest == chunk && data[end..] == [];
      Reassociate(encoded, EncodeChunk(chunk, alphabet), EncodeBytes(data[end..], alphabet));
      encoded := encoded + EncodeChunk(chunk, alphabet);
      i := end;
    }
  }

  lemma Reassociate(a: Bytes, b: Bytes, c: Bytes)
    ensures a + (b + c) == (a + b) + c
    ensures a + [] == a
  {
  }

  method WrapBase64(data: Bytes) returns (wrapped: Bytes)
    ensures wrapped == Wrap(EncodeBytes(data, Standard))
  {
    var encoded := EncodeAll(data, Standard);
    wrapped := [];
    var i := 0;
    while i < |encoded|
      invariant i <= |encoded| && wrapped + Wrap(encoded[i..]) == Wrap(encoded)
    {
      var end := if i + LINE_WIDTH <= |encoded| then i + LINE_WIDTH else |encoded|;
      ghost var rest := encoded[i..];
      assert |rest| > LINE_WIDTH ==> rest[..LINE_WIDTH] == encoded[i..end] && rest[LINE_WIDTH..] == encoded[end..];
      assert |rest| <= LINE_WIDTH ==> rest == encoded[i..end] && encoded[end..] == [];
      Reassociate(wrapped, encoded[i..end] + CRLF, Wrap(encoded[end..]));
      Reassociate(wrapped, encoded[i..end], CRLF);
      wrapped := wrapped + encoded[i..end] + CRLF;
      i := end;
    }
  }

  // ----- Decoding -----

  datatype Status = Running | Stopped | Failed

  datatype Decoder = Decoder(accumulator: nat, bits: nat, output: Bytes, status: Status)

  const START := Decoder(0, 0, [], Running)

  function Power(bits: nat): (p: nat)
    ensures p >= 1
  {
    if bits == 0 then 1 else 2 * Power(bits - 1)
  }

  /** The accumulator with one more digit; the largest value the 32-bit variable ever takes. */
  function Shifted(d: Decoder, digit: nat): nat { d.accumulator * 64 + digit }

  /** Truncation to eight bits is the cast `as u8`. */
  function Push(d: Decoder, digit: nat): Decoder
  {
    var value, bits := Shifted(d, digit), d.bits + 6;
    if bits >= 8 then
      var unit := Power(bits - 8);
      Decoder(value % unit, bits - 8, d.output + [value / unit % 256], Running)
    else Decoder(value, bits, d.output, Running)
  }

  function Feed(d: Decoder, b: byte): Decoder
  {
    if !d.status.Running? || AsciiWhitespace(b) then d
    else if b == PAD then d.(status := Stopped)
    else match DigitOf(b) case Some(digit) => Push(d, digit) case None => d.(status := Failed)
  }

  function FeedAll(d: Decoder, input: Bytes): Decoder
  {
    if input == [] then d else Feed(FeedAll(d, input[..|input| - 1]), input[|input| - 1])
  }

  function DecodeBase64(input: Bytes): Option<Bytes>
  {
    var d := FeedAll(START, input);
    if d.status.Failed? then None else Some(d.output)
  }

  method PushDigit(accumulator: nat, bits: nat, output: Bytes, digit: nat)
    returns (rest: nat, left: nat, bytes: Bytes)
    requires digit < 64
    ensures Decoder(rest, left, bytes, Running) == Push(Decoder(accumulator, bits, output, Running), digit)
  {
    rest, left, bytes := accumulator * 64 + digit, bits + 6, output;
    if left >= 8 {
      left := left - 8;
      bytes := bytes + [rest / Power(left) % 256];
      rest := rest % Power(left);
    }
  }

  method DecodeInput(input: Bytes) returns (output: Option<Bytes>)
    ensures output == DecodeBase64(input)
  {
    var accumulator: nat, bits: nat, bytes: Bytes := 0, 0, [];
    var i := 0;
    while i < |input|
      invariant i <= |input|
      invariant FeedAll(START, input[..i]) == Decoder(accumulator, bits, bytes, Running)
    {
      assert input[..i + 1][..i] == input[..i];
      var b := input[i];
      i := i + 1;
      if AsciiWhitespace(b) {
        continue;
      }
      if b == PAD {
        Finished(input, i);
        return Some(bytes);
      }
      var digit := DigitOf(b);
      if digit.None? {
        Finished(input, i);
        return None;
      }
      accumulator, bits, bytes := PushDigit(accumulator, bits, bytes, digit.value);
    }
    assert input[..|input|] == input;
    output := Some(bytes);
  }

  lemma {:induction false} FeedAllConcat(d: Decoder, a: Bytes, b: Bytes)
    ensures FeedAll(d, a + b) == FeedAll(FeedAll(d, a), b)
  {
    if b == [] {
      assert a + b == a;
    } else {
      assert (a + b)[..|a + b| - 1] == a + b[..|b| - 1];
      FeedAllConcat(d, a, b[..|b| - 1]);
    }
  }

  lemma {:induction false} FeedAllDone(d: Decoder, input: Bytes)
    requires !d.status.Running?
    ensures FeedAll(d, input) == d
  {
    if input != [] {
      FeedAllDone(d, input[..|input| - 1]);
    }
  }

  lemma Finished(input: Bytes, i: nat)
    requires i <= |input| && !FeedAll(START, input[..i]).status.Running?
    ensures FeedAll(START, input) == FeedAll(START, input[..i])
  {
    FeedAllConcat(START, input[..i], input[i..]);
    assert input[..i] + input[i..] == input;
    FeedAllDone(FeedAll(START, input[..i]), input[i..]);
  }

  // ----- The accumulator -----

  /** Fewer than eight bits are pending, in the low bits of the accumulator. */
  predicate Pending(d: Decoder) { d.bits in {0, 2, 4, 6} && d.accumulator < Power(d.bits) }

  lemma Powers()
    ensures Power(0) == 1 && Power(2) == 4 && Power(4) == 16 && Power(6) == 64
  {
    assert Power(1) == 2 && Power(3) == 8 && Power(5) == 32;
  }

  /** Over every input the accumulator stays below 2^12 even before it is reduced, and the byte taken out of it needs
      no truncation, so the 32-bit arithmetic never loses anything. */
  lemma {:induction false} AccumulatorBounded(input: Bytes, digit: nat)
    requires digit < 64
    ensures var d := FeedAll(START, input);
      Pending(d) && Shifted(d, digit) < 4096 && (d.bits >= 2 ==> Shifted(d, digit) / Power(d.bits - 2) < 256)
  {
    Powers();
    if input != [] {
      var b := input[|input| - 1];
      var last := match DigitOf(b) case Some(x) => x case None => 0;
      AccumulatorBounded(input[..|input| - 1], last);
    }
  }

  // ----- Round trips -----

  lemma LetterIsDigit(alphabet: Alphabet, digit: nat)
    requires digit < 64
    ensures DigitOf(Letter(alphabet, digit)) == Some(digit)
    ensures !AsciiWhitespace(Letter(alphabet, digit)) && Letter(alphabet, digit) != PAD
  {
  }

  /** Feeding the letter of a digit to a running decoder. */
  lemma FeedLetter(d: Decoder, input: Bytes, alphabet: Alphabet, digit: nat)
    requires digit < 64 && FeedAll(d, input).status.Running?
    ensures FeedAll(d, input + [Letter(alphabet, digit)]) == Push(FeedAll(d, input), digit)
  {
    LetterIsDigit(alphabet, digit);
    assert (input + [Letter(alphabet, digit)])[..|input|] == input;
  }

  /** A decoder between two chunks. */
  predicate Clean(d: Decoder) { d.status.Running? && d.accumulator == 0 && d.bits == 0 }

  lemma Quotient(n: nat, q: nat, m: nat, r: nat)
    requires m > 0 && n == q * m + r && r < m
    ensures n / m == q && n % m == r
  {
    DivUnique(n, m, q, r);
  }

  /** The four digits of a chunk in terms of its bytes. */
  lemma Digits(a: nat, b: nat, c: nat)
    requires a < 256 && b < 256 && c < 256
    ensures var value := a * 65536 + b * 256 + c;
      && value / 262144 % 64 == a / 4 && value / 4096 % 64 == a % 4 * 16 + b / 16
      && value / 64 % 64 == b % 16 * 4 + c / 64 && value % 64 == c % 64
  {
    var value := a * 65536 + b * 256 + c;
    var x, y, z, w := a / 4, a % 4 * 16 + b / 16, b % 16 * 4 + c / 64, c % 64;
    Quotient(value, x, 262144, y * 4096 + z * 64 + w);
    Quotient(value, x * 64 + y, 4096, z * 64 + w);
    Quotient(value, (x * 64 + y) * 64 + z, 64, w);
    Quotient(x * 64 + y, x, 64, y);
    Quotient((x * 64 + y) * 64 + z, x * 64 + y, 64, z);
  }

  lemma PushSecond(a: byte, b: nat, output: Bytes)
    requires b < 256
    ensures Push(Push(Decoder(0, 0, output, Running), a as nat / 4), a as nat % 4 * 16 + b / 16)
      == Decoder(b / 16, 4, output + [a], Running)
  {
    Powers();
    Quotient(a as nat / 4 * 64 + (a as nat % 4 * 16 + b / 16), a as nat, 16, b / 16);
  }

  lemma PushThird(b: byte, c: nat, output: Bytes)
    requires c < 256
    ensures Push(Decoder(b as nat / 16, 4, output, Running), b as nat % 16 * 4 + c / 64)
      == Decoder(c / 64, 2, output + [b], Running)
  {
    Powers();
    Quotient(b as nat / 16 * 64 + (b as nat % 16 * 4 + c / 64), b as nat, 4, c / 64);
  }

  lemma PushLast(c: byte, output: Bytes)
    ensures Push(Decoder(c as nat / 64, 2, output, Running), c as nat % 64) == Decoder(0, 0, output + [c], Running)
  {
    Powers();
  }

  lemma TwoLetters(d: Decoder, alphabet: Alphabet, a: byte, b: nat)
    requires Clean(d) && b < 256
    ensures FeedAll(d, [Letter(alphabet, a as nat / 4), Letter(alphabet, a as nat % 4 * 16 + b / 16)])
      == Decoder(b / 16, 4, d.output + [a], Running)
  {
    var x, y := a as nat / 4, a as nat % 4 * 16 + b / 16;
    FeedLetter(d, [], alphabet, x);
    FeedLetter(d, [Letter(alphabet, x)], alphabet, y);
    assert [] + [Letter(alphabet, x)] == [Letter(alphabet, x)];
    assert [Letter(alphabet, x)] + [Letter(alphabet, y)] == [Letter(alphabet, x), Letter(alphabet, y)];
    PushSecond(a, b, d.output);
  }

  function TwoDigits(alphabet: Alphabet, a: nat, b: nat): Bytes
    requires a < 256 && b < 256
  {
    [Letter(alphabet, a / 4), Letter(alphabet, a % 4 * 16 + b / 16)]
  }

  lemma ThreeLetters(d: Decoder, alphabet: Alphabet, a: byte, b: byte, c: nat)
    requires Clean(d) && c < 256
    ensures FeedAll(d, TwoDigits(alphabet, a as nat, b as nat) + [Letter(alphabet, b as nat % 16 * 4 + c / 64)])
      == Decoder(c / 64, 2, d.output + [a] + [b], Running)
  {
    TwoLetters(d, alphabet, a, b as nat);
    FeedLetter(d, TwoDigits(alphabet, a as nat, b as nat), alphabet, b as nat % 16 * 4 + c / 64);
    PushThird(b, c, d.output + [a]);
  }

  /** The letters of a chunk, one digit at a time. */
  lemma ChunkLetters(chunk: Bytes, alphabet: Alphabet)
    requires 1 <= |chunk| <= 3
    ensures var a, b, c := ByteAt(chunk, 0), ByteAt(chunk, 1), ByteAt(chunk, 2);
      var two, pads := TwoDigits(alphabet, a, b), Padding(alphabet);
      EncodeChunk(chunk, alphabet) ==
        if |chunk| == 1 then two + (pads + pads)
        else two + [Letter(alphabet, b % 16 * 4 + c / 64)] + if |chunk| == 2 then pads else [Letter(alphabet, c % 64)]
  {
    var a, b, c := ByteAt(chunk, 0), ByteAt(chunk, 1), ByteAt(chunk, 2);
    Digits(a, b, c);
    assert EncodeChunk(chunk, alphabet) ==
      Letters(alphabet, |chunk|, a / 4, a % 4 * 16 + b / 16, b % 16 * 4 + c / 64, c % 64);
    LettersOf(alphabet, |chunk|, a / 4, a % 4 * 16 + b / 16, b % 16 * 4 + c / 64, c % 64);
  }

  lemma LettersOf(alphabet: Alphabet, n: nat, x: nat, y: nat, z: nat, w: nat)
    requires x < 64 && y < 64 && z < 64 && w < 64 && 1 <= n <= 3
    ensures Letters(alphabet, n, x, y, z, w) ==
      if n == 1 then [Letter(alphabet, x), Letter(alphabet, y)] + (Padding(alphabet) + Padding(alphabet))
      else
        [Letter(alphabet, x), Letter(alphabet, y)] + [Letter(alphabet, z)]
        + if n == 2 then Padding(alphabet) else [Letter(alphabet, w)]
  {
  }

  lemma FourLetters(d: Decoder, alphabet: Alphabet, a: byte, b: byte, c: byte)
    requires Clean(d)
    ensures FeedAll(d, TwoDigits(alphabet, a as nat, b as nat) + [Letter(alphabet, b as nat % 16 * 4 + c as nat / 64)]
                       + [Letter(alphabet, c as nat % 64)])
      == d.(output := d.output + [a, b, c])
  {
    var three := TwoDigits(alphabet, a as nat, b as nat) + [Letter(alphabet, b as nat % 16 * 4 + c as nat / 64)];
    ThreeLetters(d, alphabet, a, b, c as nat);
    FeedLetter(d, three, alphabet, c as nat % 64);
    PushLast(c, d.output + [a] + [b]);
    Append3(d.output, a, b, c);
  }

  lemma Append3(output: Bytes, a: byte, b: byte, c: byte)
    ensures output + [a] + [b] + [c] == output + [a, b, c]
  {
  }

  lemma ThreeBytes(alphabet: Alphabet, a: byte, b: byte, c: byte)
    ensures EncodeChunk([a, b, c], alphabet) == TwoDigits(alphabet, a as nat, b as nat)
      + [Letter(alphabet, b as nat % 16 * 4 + c as nat / 64)] + [Letter(alphabet, c as nat % 64)]
  {
    ChunkLetters([a, b, c], alphabet);
  }

  lemma WholeChunk(d: Decoder, alphabet: Alphabet, a: byte, b: byte, c: byte)
    requires Clean(d)
    ensures FeedAll(d, EncodeChunk([a, b, c], alphabet)) == d.(output := d.output + [a, b, c])
  {
    ThreeBytes(alphabet, a, b, c);
    FourLetters(d, alphabet, a, b, c);
  }

  lemma AnyChunk(d: Decoder, alphabet: Alphabet, chunk: Bytes)
    requires Clean(d) && |chunk| == 3
    ensures FeedAll(d, EncodeChunk(chunk, alphabet)) == d.(output := d.output + chunk)
  {
    var same := [chunk[0], chunk[1], chunk[2]];
    WholeChunk(d, alphabet, chunk[0], chunk[1], chunk[2]);
    assert same == chunk;
  }

  predicate Decodes(d: Decoder, encoded: Bytes, data: Bytes)
  {
    !FeedAll(d, encoded).status.Failed? && FeedAll(d, encoded).output == d.output + data
  }

  lemma LastByte(d: Decoder, alphabet: Alphabet, a: byte)
    requires Clean(d)
    ensures Decodes(d, EncodeChunk([a], alphabet), [a])
  {
    var pads := Padding(alphabet);
    ChunkLetters([a], alphabet);
    TwoLetters(d, alphabet, a, 0);
    FeedPads(d, TwoDigits(alphabet, a as nat, 0), pads + pads);
  }

  lemma LastTwoBytes(d: Decoder, alphabet: Alphabet, a: byte, b: byte)
    requires Clean(d)
    ensures Decodes(d, EncodeChunk([a, b], alphabet), [a, b])
  {
    ChunkLetters([a, b], alphabet);
    ThreeLetters(d, alphabet, a, b, 0);
    assert d.output + [a] + [b] == d.output + [a, b];
    FeedPads(d, TwoDigits(alphabet, a as nat, b as nat) + [Letter(alphabet, b as nat % 16 * 4)], Padding(alphabet));
  }

  /** The last chunk leaves its bytes in the output, whether it is padded or not. */
  lemma LastChunk(d: Decoder, alphabet: Alphabet, chunk: Bytes)
    requires Clean(d) && 1 <= |chunk| <= 2
    ensures Decodes(d, EncodeChunk(chunk, alphabet), chunk)
  {
    if |chunk| == 1 {
      assert chunk == [chunk[0]];
      LastByte(d, alphabet, chunk[0]);
    } else {
      assert chunk == [chunk[0], chunk[1]];
      LastTwoBytes(d, alphabet, chunk[0], chunk[1]);
    }
  }

  lemma {:induction false} FeedPads(d: Decoder, input: Bytes, pads: Bytes)
    requires FeedAll(d, input).status.Running? && forall i :: 0 <= i < |pads| ==> pads[i] == PAD
    ensures var after := FeedAll(d, input + pads); !after.status.Failed? && after.output == FeedAll(d, input).output
  {
    if pads == [] {
      assert input + pads == input;
    } else {
      assert (input + pads)[..|input + pads| - 1] == input + pads[..|pads| - 1];
      FeedPads(d, input, pads[..|pads| - 1]);
    }
  }

  type Machine = (Decoder, Bytes) -> Decoder

  predicate DecodesBy(run: Machine, d: Decoder, encoded: Bytes, data: Bytes)
  {
    !run(d, encoded).status.Failed? && run(d, encoded).output == d.output + data
  }

  /** What a machine must do with the output of a chunk encoder. */
  ghost predicate Inverts(run: Machine, encode: Bytes -> Bytes)
  {
    && (forall d: Decoder, a: Bytes, b: Bytes {:trigger run(d, a + b)} :: run(d, a + b) == run(run(d, a), b))
    && (forall d, chunk {:trigger run(d, encode(chunk))} :: Clean(d) && |chunk| == 3 ==>
      run(d, encode(chunk)) == d.(output := d.output + chunk))
    && (forall d, chunk {:trigger DecodesBy(run, d, encode(chunk), chunk)} :: Clean(d) && 1 <= |chunk| <= 2 ==>
      DecodesBy(run, d, encode(chunk), chunk))
    && (forall d :: run(d, []) == d)
  }

  lemma {:induction false} DecodeChunks(run: Machine, d: Decoder, data: Bytes, encode: Bytes -> Bytes)
    requires Clean(d) && Inverts(run, encode)
    ensures DecodesBy(run, d, EncodeChunks(data, encode), data)
    decreases |data|
  {
    if data == [] {
      assert d.output + data == d.output;
    } else if |data| > 3 {
      var chunk, rest := data[..3], data[3..];
      var after := d.(output := d.output + chunk);
      DecodeChunks(run, after, rest, encode);
      assert run(d, encode(chunk)) == after;
      assert run(d, encode(chunk) + EncodeChunks(rest, encode)) == run(after, EncodeChunks(rest, encode));
      assert d.output + chunk + rest == d.output + data;
    }
  }

  lemma DecodeEncoded(data: Bytes, alphabet: Alphabet)
    ensures Decodes(START, EncodeBytes(data, alphabet), data)
  {
    var encode := ChunkEncoder(alphabet);
    var run: Machine := FeedAll;
    forall d: Decoder, a: Bytes, b: Bytes ensures run(d, a + b) == run(run(d, a), b) {
      FeedAllConcat(d, a, b);
    }
    forall d, chunk | Clean(d) && |chunk| == 3 ensures run(d, encode(chunk)) == d.(output := d.output + chunk) {
      AnyChunk(d, alphabet, chunk);
    }
    forall d, chunk | Clean(d) && 1 <= |chunk| <= 2 ensures DecodesBy(run, d, encode(chunk), chunk) {
      LastChunk(d, alphabet, chunk);
    }
    DecodeChunks(run, START, data, encode);
  }

  /** Line breaks are ignored wherever they stand. */
  lemma {:induction false} FeedWrapped(d: Decoder, encoded: Bytes)
    ensures FeedAll(d, Wrap(encoded)) == FeedAll(d, encoded)
    decreases |encoded|
  {
    if encoded != [] {
      var line := if |encoded| <= LINE_WIDTH then encoded else encoded[..LINE_WIDTH];
      var rest := encoded[|line|..];
      FeedCrlf(d, line);
      FeedAllConcat(d, line + CRLF, Wrap(rest));
      FeedAllConcat(d, line, rest);
      FeedWrapped(FeedAll(d, line), rest);
      assert line + rest == encoded;
      assert line + CRLF + [] == line + CRLF;
    }
  }

  lemma FeedCrlf(d: Decoder, line: Bytes)
    ensures FeedAll(d, line + CRLF) == FeedAll(d, line)
  {
    assert line + CRLF == line + [13] + [10];
    assert (line + [13] + [10])[..|line| + 1] == line + [13];
    assert (line + [13])[..|line|] == line;
  }

  /** Decoding inverts the 76-column mail encoder on every byte string. */
  lemma DecodeWrapped(data: Bytes)
    ensures DecodeBase64(Wrap(EncodeBytes(data, Standard))) == Some(data)
  {
    FeedWrapped(START, EncodeBytes(data, Standard));
    DecodeEncoded(data, Standard);
    assert [] + data == data;
  }

  /** And the unpadded URL-safe encoder of the Gmail adapter. */
  lemma DecodeUrlSafe(data: Bytes)
    ensures DecodeBase64(EncodeBytes(data, UrlSafe)) == Some(data)
  {
    DecodeEncoded(data, UrlSafe);
    assert [] + data == data;
  }

  // ----- The shape of encoded text -----

  predicate MailByte(b: byte) { b == PAD || (b != 45 && b != 95 && DigitOf(b).Some?) }

  /** A line break within a line's width. */
  predicate BreakWithin(wrapped: Bytes, i: nat)
  {
    exists k :: i <= k <= i + LINE_WIDTH && k < |wrapped| && wrapped[k] in CRLF
  }

  predicate LineWidthKept(wrapped: Bytes)
  {
    forall i :: 0 <= i < |wrapped| - LINE_WIDTH ==> BreakWithin(wrapped, i)
  }

  predicate MailBytes(encoded: Bytes) { forall i :: 0 <= i < |encoded| ==> MailByte(encoded[i]) }

  lemma {:induction false} ChunksMail(data: Bytes, encode: Bytes -> Bytes)
    requires forall chunk {:trigger encode(chunk)} :: 1 <= |chunk| <= 3 ==>
      MailBytes(encode(chunk)) && |encode(chunk)| == 4
    ensures MailBytes(EncodeChunks(data, encode)) && |EncodeChunks(data, encode)| == (|data| + 2) / 3 * 4
  {
    if |data| > 3 {
      ChunksMail(data[3..], encode);
    }
  }

  lemma ChunkIsMail(chunk: Bytes)
    requires 1 <= |chunk| <= 3
    ensures MailBytes(EncodeChunk(chunk, Standard)) && |EncodeChunk(chunk, Standard)| == 4
  {
    var value := ChunkValue(chunk);
    LetterIsMail(value / 262144 % 64);
    LetterIsMail(value / 4096 % 64);
    LetterIsMail(value / 64 % 64);
    LetterIsMail(value % 64);
  }

  lemma LetterIsMail(digit: nat)
    requires digit < 64
    ensures MailByte(Letter(Standard, digit))
  {
  }

  lemma EncodedLetters(data: Bytes)
    ensures MailBytes(EncodeBytes(data, Standard)) && |EncodeBytes(data, Standard)| == (|data| + 2) / 3 * 4
  {
    var encode := ChunkEncoder(Standard);
    forall chunk: Bytes | 1 <= |chunk| <= 3 ensures MailBytes(encode(chunk)) && |encode(chunk)| == 4 {
      ChunkIsMail(chunk);
    }
    ChunksMail(data, encode);
  }

  /** Wrapped text has only letters, digits, `+`, `/`, `=` and line breaks, and it ends with a line break. */
  lemma {:induction false} WrappedBytes(encoded: Bytes)
    requires MailBytes(encoded)
    ensures forall i :: 0 <= i < |Wrap(encoded)| ==> MailByte(Wrap(encoded)[i]) || Wrap(encoded)[i] in CRLF
    ensures encoded != [] ==> (|Wrap(encoded)| > 2 && Wrap(encoded)[|Wrap(encoded)| - 2..] == CRLF
      && MailByte(Wrap(encoded)[|Wrap(encoded)| - 3]) && MailByte(Wrap(encoded)[0]))
  {
    if |encoded| > LINE_WIDTH {
      WrappedBytes(encoded[LINE_WIDTH..]);
    }
  }

  /** No line of wrapped text is longer than 76 characters. */
  lemma {:induction false} LinesAreShort(encoded: Bytes)
    ensures LineWidthKept(Wrap(encoded))
  {
    if encoded != [] {
      var line := if |encoded| <= LINE_WIDTH then encoded else encoded[..LINE_WIDTH];
      var rest := Wrap(encoded[|line|..]);
      LinesAreShort(encoded[|line|..]);
      var wrapped := Wrap(encoded);
      assert wrapped == line + CRLF + rest;
      forall i | 0 <= i < |wrapped| - LINE_WIDTH ensures BreakWithin(wrapped, i) {
        var n := |line|;
        if i <= n {
          assert wrapped[n] == 13;
        } else if i == n + 1 {
          assert wrapped[n + 1] == 10;
        } else {
          assert BreakWithin(rest, i - n - 2);
          var k :| i - n - 2 <= k <= i - n - 2 + LINE_WIDTH && k < |rest| && rest[k] in CRLF;
          assert wrapped[k + n + 2] == rest[k];
        }
      }
    }
  }
}
