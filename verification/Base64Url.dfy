/** The URL-safe base64 alphabet (section 5 of RFC 4648) written without padding (section 3.2) and read back
    after padding again to a multiple of four characters. */
module Base64Url {
  import opened Common

  type Sextet = v: int | 0 <= v < 64

  predicate UrlSafe(c: char) {
    'A' <= c <= 'Z' || 'a' <= c <= 'z' || '0' <= c <= '9' || c == '-' || c == '_'
  }

  /** The decoder also takes the two symbols of the standard alphabet. */
  function SymbolValue(c: char): Option<Sextet> {
    if 'A' <= c <= 'Z' then Some(c as int - 'A' as int)
    else if 'a' <= c <= 'z' then Some(c as int - 'a' as int + 26)
    else if '0' <= c <= '9' then Some(c as int - '0' as int + 52)
    else if c == '-' || c == '+' then Some(62)
    else if c == '_' || c == '/' then Some(63)
    else None
  }

  function Symbol(v: Sextet): (c: char)
    ensures UrlSafe(c) && SymbolValue(c) == Some(v)
  {
    if v < 26 then ('A' as int + v) as char
    else if v < 52 then ('a' as int + (v - 26)) as char
    else if v < 62 then ('0' as int + (v - 52)) as char
    else if v == 62 then '-' else '_'
  }

  /** Three bytes at a time become four groups of six bits; the last group of a shorter rest is filled up
      with zero bits. */
  function Sextets(b: seq<Byte>): seq<Sextet> {
    if b == [] then []
    else if |b| == 1 then Quartet(b[0], 0, 0)[..2]
    else if |b| == 2 then Quartet(b[0], b[1], 0)[..3]
    else Quartet(b[0], b[1], b[2]) + Sextets(b[3..])
  }

  function Quartet(x: Byte, y: Byte, z: Byte): (v: seq<Sextet>)
    ensures |v| == 4
  {
    [x / 4, x % 4 * 16 + y / 16, y % 16 * 4 + z / 64, z % 64]
  }

  function Triple(v: seq<Sextet>): (b: seq<Byte>)
    requires |v| == 4
    ensures |b| == 3
  {
    var p: int, q: int, r: int, s: int := v[0], v[1], v[2], v[3];
    [p * 4 + q / 16, q % 16 * 16 + r / 4, r % 4 * 64 + s]
  }

  /** Six bits left over are too few for a byte; left-over bits that fill no byte are dropped. */
  function Bytes(v: seq<Sextet>): (b: Option<seq<Byte>>) {
    if v == [] then Some([])
    else if |v| == 1 then None
    else if |v| == 2 then Some(Triple(v + [0, 0])[..1])
    else if |v| == 3 then Some(Triple(v + [0])[..2])
    else
      var rest := Bytes(v[4..]);
      if rest.None? then None else Some(Triple(v[..4]) + rest.value)
  }

  function Symbols(v: seq<Sextet>): string {
    if v == [] then "" else [Symbol(v[0])] + Symbols(v[1..])
  }

  function SymbolValues(text: string): Option<seq<Sextet>> {
    if text == "" then Some([])
    else
      var first, rest := SymbolValue(text[0]), SymbolValues(text[1..]);
      if first.None? || rest.None? then None else Some([first.value] + rest.value)
  }

  function Pads(k: nat): string {
    if k == 0 then "" else Pads(k - 1) + "="
  }

  /** Two, one or no characters for one, two or three bytes in the last group. */
  function PadCount(bytes: nat): nat {
    if bytes == 0 then 0 else if bytes < 3 then 3 - bytes else PadCount(bytes - 3)
  }

  /** With padding to a multiple of four characters. */
  function Padded(b: seq<Byte>): string {
    Symbols(Sextets(b)) + Pads(PadCount(|b|))
  }

  function Strip(text: string): string {
    if text != "" && text[|text| - 1] == '=' then Strip(text[..|text| - 1]) else text
  }

  function DecodePadded(text: string): Option<seq<Byte>> {
    var body := Strip(text);
    if |text| % 4 != 0 || |text| > |body| + 2 then None
    else
      match SymbolValues(body)
      case None => None
      case Some(v) => Bytes(v)
  }

  function Encode(b: seq<Byte>): string {
    Strip(Padded(b))
  }

  /** What a length lacks to a multiple of four. */
  function MissingPads(length: nat): (k: nat)
    ensures k < 4 && (length + k) % 4 == 0
  {
    if length == 0 then 0 else if length < 4 then 4 - length else MissingPads(length - 4)
  }

  function Decode(text: string): Option<seq<Byte>> {
    DecodePadded(text + Pads(MissingPads(|text|)))
  }

  /** The alphabet: from A to Z, from a to z, from 0 to 9, and the two symbols that are safe in a URL. */
  lemma AlphabetIs(v: Sextet)
    ensures Symbol(0) == 'A' && Symbol(25) == 'Z' && Symbol(26) == 'a' && Symbol(51) == 'z'
    ensures Symbol(52) == '0' && Symbol(61) == '9' && Symbol(62) == '-' && Symbol(63) == '_'
    ensures v < 61 && v != 25 && v != 51 ==> Symbol(v + 1) as int == Symbol(v) as int + 1
  {
  }

  /** The four groups of six bits are the same number as the three bytes. */
  lemma QuartetIsNumber(x: Byte, y: Byte, z: Byte)
    ensures var q := Quartet(x, y, z);
            var a: int, b: int, c: int, d: int := q[0], q[1], q[2], q[3];
            ((a * 64 + b) * 64 + c) * 64 + d == (x as int * 256 + y as int) * 256 + z as int
  {
  }

  lemma BytesRead(x: Byte, y: Byte, z: Byte)
    ensures Triple(Quartet(x, y, z)) == [x, y, z]
  {
  }

  lemma SextetsOfThree(x: Byte, y: Byte, z: Byte, tail: seq<Byte>)
    ensures Sextets([x, y, z] + tail) == Quartet(x, y, z) + Sextets(tail)
  {
    assert ([x, y, z] + tail)[3..] == tail;
  }

  lemma BytesOfFour(v: seq<Sextet>, tail: seq<Sextet>)
    requires |v| == 4 && Bytes(tail).Some?
    ensures Bytes(v + tail) == Some(Triple(v) + Bytes(tail).value)
  {
    assert (v + tail)[4..] == tail;
  }

  lemma {:induction false} BytesOfSextets(b: seq<Byte>)
    ensures Bytes(Sextets(b)) == Some(b)
  {
    if |b| == 1 {
      BytesRead(b[0], 0, 0);
      assert Quartet(b[0], 0, 0) == Quartet(b[0], 0, 0)[..2] + [0, 0];
      assert b == [b[0], 0, 0][..1];
    } else if |b| == 2 {
      BytesRead(b[0], b[1], 0);
      assert Quartet(b[0], b[1], 0) == Quartet(b[0], b[1], 0)[..3] + [0];
      assert b == [b[0], b[1], 0][..2];
    } else if |b| > 2 {
      var tail := b[3..];
      BytesOfSextets(tail);
      BytesRead(b[0], b[1], b[2]);
      BytesOfFour(Quartet(b[0], b[1], b[2]), Sextets(tail));
      assert b == [b[0], b[1], b[2]] + tail;
      SextetsOfThree(b[0], b[1], b[2], tail);
    }
  }

  lemma {:induction false} SextetCount(b: seq<Byte>)
    ensures |Sextets(b)| == (4 * |b| + 2) / 3
  {
    if |b| > 2 {
      SextetCount(b[3..]);
    }
  }

  lemma {:induction false} SymbolsRead(v: seq<Sextet>)
    ensures SymbolValues(Symbols(v)) == Some(v)
    ensures |Symbols(v)| == |v| && forall c :: c in Symbols(v) ==> UrlSafe(c)
  {
    if v != [] {
      SymbolsRead(v[1..]);
      assert Symbols(v)[1..] == Symbols(v[1..]);
      assert v == [v[0]] + v[1..];
    }
  }

  lemma {:induction false} StripPads(body: string, k: nat)
    requires forall c :: c in body ==> UrlSafe(c)
    ensures Strip(body + Pads(k)) == body
    ensures |Pads(k)| == k
  {
    if k == 0 {
      assert body + Pads(0) == body;
      assert body != "" ==> UrlSafe(body[|body| - 1]);
    } else {
      var text := body + Pads(k);
      StripPads(body, k - 1);
      assert text[..|text| - 1] == body + Pads(k - 1);
    }
  }

  lemma {:induction false} PadsAreMissing(b: seq<Byte>)
    ensures MissingPads(|Sextets(b)|) == PadCount(|b|) <= 2
  {
    if |b| > 2 {
      PadsAreMissing(b[3..]);
    }
  }

  /** Padding stands only at the end, completing the text to a multiple of four characters, and is exactly
      what is put back. */
  lemma PaddedShape(b: seq<Byte>)
    ensures Encode(b) == Symbols(Sextets(b))
    ensures |Encode(b)| == (4 * |b| + 2) / 3
    ensures Padded(b) == Encode(b) + Pads(MissingPads(|Encode(b)|))
    ensures |Pads(MissingPads(|Encode(b)|))| == MissingPads(|Encode(b)|) <= 2
  {
    SymbolsRead(Sextets(b));
    SextetCount(b);
    StripPads(Symbols(Sextets(b)), PadCount(|b|));
    PadsAreMissing(b);
  }

  /** What is written without padding is read back. */
  lemma DecodeEncode(b: seq<Byte>)
    ensures Decode(Encode(b)) == Some(b)
  {
    PaddedShape(b);
    SymbolsRead(Sextets(b));
    BytesOfSextets(b);
  }

  /** Nothing in the text needs escaping in a URL, and there are four symbols for every three bytes, rounded
      up. */
  lemma EncodeIsUrlSafe(b: seq<Byte>)
    ensures forall c :: c in Encode(b) ==> UrlSafe(c)
    ensures |Encode(b)| == (4 * |b| + 2) / 3
  {
    PaddedShape(b);
    SymbolsRead(Sextets(b));
  }

  lemma {:induction false} SymbolsConcat(a: seq<Sextet>, b: seq<Sextet>)
    ensures Symbols(a + b) == Symbols(a) + Symbols(b)
  {
    if a == [] {
      assert a + b == b;
    } else {
      assert (a + b)[1..] == a[1..] + b;
      SymbolsConcat(a[1..], b);
    }
  }

  /** Three bytes more in front are four symbols more in front. */
  lemma EncodeThreeMore(x: Byte, y: Byte, z: Byte, tail: seq<Byte>)
    ensures Encode([x, y, z] + tail) == Symbols(Quartet(x, y, z)) + Encode(tail)
  {
    PaddedShape([x, y, z] + tail);
    PaddedShape(tail);
    SextetsOfThree(x, y, z, tail);
    SymbolsConcat(Quartet(x, y, z), Sextets(tail));
  }
}
