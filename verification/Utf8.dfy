/** UTF-8 (section 3 of RFC 3629) over Unicode scalar values, as the control plane uses it when it
    writes log text to files and when it measures text in bytes. */
module Utf8 {
  import opened Common

  /** The one to four bytes of one character: a lead byte, then six bits at a time. */
  function CharBytes(c: char): (b: seq<Byte>)
    ensures 1 <= |b| <= 4
  {
    var n := c as int;
    if n < 0x80 then [n]
    else if n < 0x800 then [0xC0 + n / 64, 0x80 + n % 64]
    else if n < 0x10000 then [0xE0 + n / 64 / 64, 0x80 + n / 64 % 64, 0x80 + n % 64]
    else [0xF0 + n / 64 / 64 / 64, 0x80 + n / 64 / 64 % 64, 0x80 + n / 64 % 64, 0x80 + n % 64]
  }

  function Encode(s: string): seq<Byte> {
    if s == [] then [] else CharBytes(s[0]) + Encode(s[1..])
  }

  predicate Continuation(b: Byte) {
    0x80 <= b < 0xC0
  }

  /** The value `lead` followed by the six low bits of a continuation byte. */
  function Shift(lead: int, b: Byte): int {
    lead * 64 + (b as int - 0x80)
  }

  /** The character a well-formed sequence at the front of `b` stands for, with the bytes it uses.
      Overlong forms, surrogates and values past U+10FFFF are malformed. */
  function DecodeFirst(b: seq<Byte>): (r: Option<(char, nat)>)
    ensures r.Some? ==> 1 <= r.value.1 <= |b|
  {
    if b == [] then None
    else if b[0] < 0x80 then Some((b[0] as char, 1))
    else if 0xC0 <= b[0] < 0xE0 && |b| >= 2 && Continuation(b[1]) then
      var n := Shift(b[0] as int - 0xC0, b[1]);
      if n < 0x80 then None else Some((n as char, 2))
    else if 0xE0 <= b[0] < 0xF0 && |b| >= 3 && Continuation(b[1]) && Continuation(b[2]) then
      var n := Shift(Shift(b[0] as int - 0xE0, b[1]), b[2]);
      if n < 0x800 || 0xD800 <= n < 0xE000 then None else Some((n as char, 3))
    else if 0xF0 <= b[0] < 0xF8 && |b| >= 4 && Continuation(b[1]) && Continuation(b[2]) && Continuation(b[3]) then
      var n := Shift(Shift(Shift(b[0] as int - 0xF0, b[1]), b[2]), b[3]);
      if n < 0x10000 || 0x110000 <= n then None else Some((n as char, 4))
    else None
  }

  function Decode(b: seq<Byte>): (r: Option<string>)
    decreases |b|
  {
    if b == [] then Some("")
    else
      match DecodeFirst(b)
      case None => None
      case Some((c, used)) =>
        match Decode(b[used..])
        case None => None
        case Some(rest) => Some([c] + rest)
  }

  lemma ShiftInverse(lead: int, b: Byte)
    requires Continuation(b)
    ensures Shift(lead, b) / 64 == lead && Shift(lead, b) % 64 == b as int - 0x80
  {
  }

  lemma DecodeFirstOfChar(c: char, tail: seq<Byte>)
    ensures DecodeFirst(CharBytes(c) + tail) == Some((c, |CharBytes(c)|))
  {
    var b := CharBytes(c) + tail;
    assert forall i :: 0 <= i < |CharBytes(c)| ==> b[i] == CharBytes(c)[i];
  }

  lemma DecodeFirstSound(b: seq<Byte>)
    requires DecodeFirst(b).Some?
    ensures b[..DecodeFirst(b).value.1] == CharBytes(DecodeFirst(b).value.0)
  {
    var used := DecodeFirst(b).value.1;
    if used == 2 {
      ShiftInverse(b[0] as int - 0xC0, b[1]);
    } else if used == 3 {
      ShiftInverse(b[0] as int - 0xE0, b[1]);
      ShiftInverse(Shift(b[0] as int - 0xE0, b[1]), b[2]);
    } else if used == 4 {
      ShiftInverse(b[0] as int - 0xF0, b[1]);
      ShiftInverse(Shift(b[0] as int - 0xF0, b[1]), b[2]);
      ShiftInverse(Shift(Shift(b[0] as int - 0xF0, b[1]), b[2]), b[3]);
    }
  }

  /** Every text can be read back from its bytes. */
  lemma {:induction false} DecodeEncode(s: string)
    ensures Decode(Encode(s)) == Some(s)
  {
    if s != [] {
      DecodeFirstOfChar(s[0], Encode(s[1..]));
      assert Encode(s)[|CharBytes(s[0])|..] == Encode(s[1..]);
      DecodeEncode(s[1..]);
      assert [s[0]] + s[1..] == s;
    }
  }

  lemma EncodeCons(c: char, s: string)
    ensures Encode([c] + s) == CharBytes(c) + Encode(s)
  {
    assert ([c] + s)[1..] == s;
  }

  /** Only encodings of texts decode, each to the text it encodes. */
  lemma {:induction false} EncodeDecode(b: seq<Byte>)
    requires Decode(b).Some?
    ensures Encode(Decode(b).value) == b
    decreases |b|
  {
    if b != [] {
      var first := DecodeFirst(b).value;
      var tail := b[first.1..];
      DecodeFirstSound(b);
      EncodeDecode(tail);
      EncodeRest(b, first.0, first.1, Decode(tail).value);
    }
  }

  lemma EncodeRest(b: seq<Byte>, c: char, used: nat, rest: string)
    requires used <= |b| && b[..used] == CharBytes(c) && Encode(rest) == b[used..]
    ensures Encode([c] + rest) == b
  {
    EncodeCons(c, rest);
    assert b == b[..used] + b[used..];
  }

  lemma {:induction false} EncodeConcat(s: string, t: string)
    ensures Encode(s + t) == Encode(s) + Encode(t)
  {
    if s == [] {
      assert s + t == t;
    } else {
      assert (s + t)[1..] == s[1..] + t;
      EncodeConcat(s[1..], t);
    }
  }

  /** Longer prefixes take strictly more bytes: the fact the binary search on prefixes rests on. */
  lemma EncodedLengthGrows(s: string, i: nat, j: nat)
    requires i < j <= |s|
    ensures |Encode(s[..i])| < |Encode(s[..j])|
  {
    assert s[..j] == s[..i] + s[i..j];
    EncodeConcat(s[..i], s[i..j]);
    assert Encode(s[i..j]) == CharBytes(s[i..j][0]) + Encode(s[i..j][1..]);
  }

  /** The bytes of "A", of a Greek letter, of a mathematical sign and of a Chinese character (section 7 of
      RFC 3629). */
  lemma Samples()
    ensures CharBytes(0x41 as char) == [0x41] && CharBytes(0x391 as char) == [0xCE, 0x91]
    ensures CharBytes(0x2262 as char) == [0xE2, 0x89, 0xA2]
    ensures CharBytes(0x233B4 as char) == [0xF0, 0xA3, 0x8E, 0xB4]
  {
  }
}
