/** UTF-8, as `str::as_bytes`, `String::from_utf8` and `String::from_utf8_lossy` use it. */
module Utf8 {
  import opened Wrappers

  type byte = n: int | 0 <= n < 256

  type Bytes = seq<byte>

  function EncodeChar(c: char): (b: Bytes)
    ensures 1 <= |b| <= 4
  {
    var n := c as int;
    if n < 0x80 then [n]
    else if n < 0x800 then [0xC0 + n / 64, 0x80 + n % 64]
    else if n < 0x10000 then [0xE0 + n / 4096, 0x80 + n / 64 % 64, 0x80 + n % 64]
    else [0xF0 + n / 262144, 0x80 + n / 4096 % 64, 0x80 + n / 64 % 64, 0x80 + n % 64]
  }

  function Encode(s: string): Bytes
  {
    if s == "" then [] else EncodeChar(s[0]) + Encode(s[1..])
  }

  predicate Continuation(b: byte) { 0x80 <= b < 0xC0 }

  /** The six low bits of a continuation byte. */
  function Payload(b: byte): int { b as int - 0x80 }

  /** The scalar value at the front of a byte string with the number of bytes it takes; overlong forms,
      surrogates and values past U+10FFFF are refused. */
  function DecodeFirst(b: Bytes): (r: Option<(char, nat)>)
    requires |b| > 0
    ensures r.Some? ==> 1 <= r.value.1 <= |b|
  {
    var lead: int := b[0];
    if lead < 0x80 then Some((lead as char, 1))
    else if 0xC2 <= lead < 0xE0 && |b| >= 2 && Continuation(b[1]) then
      Some((((lead - 0xC0) * 64 + Payload(b[1])) as char, 2))
    else if 0xE0 <= lead < 0xF0 && |b| >= 3 && Continuation(b[1]) && Continuation(b[2]) then
      var n := (lead - 0xE0) * 4096 + Payload(b[1]) * 64 + Payload(b[2]);
      if n < 0x800 || 0xD800 <= n < 0xE000 then None else Some((n as char, 3))
    else if 0xF0 <= lead < 0xF5 && |b| >= 4 && Continuation(b[1]) && Continuation(b[2]) && Continuation(b[3]) then
      var n := (lead - 0xF0) * 262144 + Payload(b[1]) * 4096 + Payload(b[2]) * 64 + Payload(b[3]);
      if n < 0x10000 || n >= 0x110000 then None else Some((n as char, 4))
    else None
  }

  /** `String::from_utf8`. */
  function Decode(b: Bytes): Option<string>
  {
    if b == [] then Some("")
    else match DecodeFirst(b)
      case None => None
      case Some(first) =>
        match Decode(b[first.1..])
        case None => None
        case Some(rest) => Some([first.0] + rest)
  }

  lemma ThreeByteChar(c: char, rest: Bytes)
    requires 0x800 <= c as int < 0x10000
    ensures DecodeFirst(EncodeChar(c) + rest) == Some((c, 3)) && |EncodeChar(c)| == 3
  {
    var n := c as int;
    assert n / 4096 * 4096 + n / 64 % 64 * 64 + n % 64 == n;
  }

  lemma FourByteChar(c: char, rest: Bytes)
    requires 0x10000 <= c as int
    ensures DecodeFirst(EncodeChar(c) + rest) == Some((c, 4)) && |EncodeChar(c)| == 4
  {
    var n := c as int;
    assert n / 262144 * 262144 + n / 4096 % 64 * 4096 + n / 64 % 64 * 64 + n % 64 == n;
  }

  lemma DecodeFirstEncode(c: char, rest: Bytes)
    ensures DecodeFirst(EncodeChar(c) + rest) == Some((c, |EncodeChar(c)|))
  {
    if 0x800 <= c as int < 0x10000 {
      ThreeByteChar(c, rest);
    } else if 0x10000 <= c as int {
      FourByteChar(c, rest);
    }
  }

  lemma DecodeStep(first: Bytes, tail: Bytes, c: char)
    requires |first| > 0 && DecodeFirst(first + tail) == Some((c, |first|)) && Decode(tail).Some?
    ensures Decode(first + tail) == Some([c] + Decode(tail).value)
  {
    assert (first + tail)[|first|..] == tail;
  }

  lemma Associate(a: Bytes, b: Bytes, c: Bytes)
    ensures a + (b + c) == (a + b) + c
  {
  }

  lemma DecodeCons(c: char, tail: Bytes)
    requires Decode(tail).Some?
    ensures Decode(EncodeChar(c) + tail) == Some([c] + Decode(tail).value)
  {
    DecodeFirstEncode(c, tail);
    DecodeStep(EncodeChar(c), tail, c);
  }

  lemma EncodeCons(c: char, s: string)
    ensures Encode([c] + s) == EncodeChar(c) + Encode(s)
  {
    assert ([c] + s)[1..] == s;
  }

  lemma DecodeEncodeCons(c: char, s: string, rest: Bytes, more: string)
    requires Decode(Encode(s) + rest) == Some(s + more)
    ensures Decode(Encode([c] + s) + rest) == Some([c] + (s + more))
  {
    EncodeCons(c, s);
    Associate(EncodeChar(c), Encode(s), rest);
    DecodeCons(c, Encode(s) + rest);
  }

  /** Every string survives encoding and strict decoding, whatever decodable text follows it. */
  lemma {:induction false} DecodeEncodeThen(s: string, rest: Bytes, more: string)
    requires Decode(rest) == Some(more)
    ensures Decode(Encode(s) + rest) == Some(s + more)
  {
    if s == "" {
      assert Encode(s) + rest == rest;
      assert s + more == more;
    } else {
      DecodeEncodeThen(s[1..], rest, more);
      DecodeEncodeCons(s[0], s[1..], rest, more);
      assert [s[0]] + s[1..] == s;
      assert [s[0]] + (s[1..] + more) == s + more;
    }
  }

  lemma DecodeEncode(s: string)
    ensures Decode(Encode(s)) == Some(s)
  {
    DecodeEncodeThen(s, [], "");
    assert Encode(s) + [] == Encode(s);
    assert s + "" == s;
  }

  lemma {:induction false} EncodeConcat(a: string, b: string)
    ensures Encode(a + b) == Encode(a) + Encode(b)
  {
    if a == "" {
      assert a + b == b;
    } else {
      EncodeConcat(a[1..], b);
      EncodeCons(a[0], a[1..] + b);
      assert a + b == [a[0]] + (a[1..] + b);
      Associate(EncodeChar(a[0]), Encode(a[1..]), Encode(b));
    }
  }

  predicate Ascii(s: string) { forall i :: 0 <= i < |s| ==> s[i] as int < 128 }

  /** ASCII text is its own encoding, byte for byte. */
  lemma {:induction false} EncodeAscii(s: string)
    requires Ascii(s)
    ensures |Encode(s)| == |s|
    ensures forall i :: 0 <= i < |s| ==> Encode(s)[i] == s[i] as int
  {
    if s != "" {
      EncodeAscii(s[1..]);
    }
  }
}
