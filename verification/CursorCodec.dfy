/** The cursor of a paged list: the creation time and id of the last row shown, as JSON text in URL-safe
    base64. */
module CursorCodec {
  import opened Common
  import Base64Url
  import Utf8

  /** What a list is ordered by. */
  datatype Key = Key(createdAt: string, id: int)

  datatype CursorError = InvalidCursor

  // ---- numbers ----

  predicate IsDigit(c: char) {
    '0' <= c <= '9'
  }

  function Digit(n: nat): (c: char)
    requires n < 10
    ensures IsDigit(c)
  {
    ('0' as int + n) as char
  }

  function Digits(n: nat): (text: string)
    ensures text != "" && forall c :: c in text ==> IsDigit(c)
  {
    if n < 10 then [Digit(n)] else Digits(n / 10) + [Digit(n % 10)]
  }

  function Decimal(n: int): string {
    if n < 0 then "-" + Digits(-n) else Digits(n)
  }

  function DigitsValue(text: string): nat
    requires forall c :: c in text ==> IsDigit(c)
  {
    if text == "" then 0
    else
      var last := text[|text| - 1];
      assert IsDigit(last);
      DigitsValue(text[..|text| - 1]) * 10 + (last as int - '0' as int)
  }

  function DigitRun(text: string): (n: nat)
    ensures n <= |text| && forall c :: c in text[..n] ==> IsDigit(c)
  {
    if text != "" && IsDigit(text[0]) then
      assert text[..DigitRun(text[1..]) + 1] == [text[0]] + text[1..][..DigitRun(text[1..])];
      DigitRun(text[1..]) + 1
    else 0
  }

  /** A number without sign at the front of the text, and what follows it. No leading zero is allowed. */
  function ReadNat(text: string): Option<(nat, string)> {
    var n := DigitRun(text);
    if n == 0 || (text[0] == '0' && n > 1) then None else Some((DigitsValue(text[..n]), text[n..]))
  }

  function ReadInt(text: string): Option<(int, string)> {
    if text != "" && text[0] == '-' then
      match ReadNat(text[1..])
      case None => None
      case Some((n, rest)) => Some((0 - n as int, rest))
    else
      match ReadNat(text)
      case None => None
      case Some((n, rest)) => Some((n, rest))
  }

  lemma {:induction false} DigitsRead(n: nat)
    ensures DigitsValue(Digits(n)) == n
    ensures |Digits(n)| > 1 ==> Digits(n)[0] != '0'
    ensures 0 < n ==> Digits(n)[0] != '0'
  {
    if n >= 10 {
      DigitsRead(n / 10);
      assert Digits(n)[..|Digits(n)| - 1] == Digits(n / 10);
    } else {
      assert [Digit(n)][..0] == "";
    }
  }

  lemma {:induction false} DigitRunStops(digits: string, rest: string)
    requires forall c :: c in digits ==> IsDigit(c)
    requires rest != "" && !IsDigit(rest[0])
    ensures DigitRun(digits + rest) == |digits|
  {
    if digits == "" {
      assert digits + rest == rest;
    } else {
      assert (digits + rest)[1..] == digits[1..] + rest;
      DigitRunStops(digits[1..], rest);
    }
  }

  lemma NatRead(n: nat, rest: string)
    requires rest != "" && !IsDigit(rest[0])
    ensures ReadNat(Digits(n) + rest) == Some((n, rest))
  {
    var digits := Digits(n);
    DigitsRead(n);
    DigitRunStops(digits, rest);
    assert (digits + rest)[..|digits|] == digits && (digits + rest)[|digits|..] == rest;
  }

  lemma SignRead(digits: string, n: nat, rest: string)
    requires digits != "" && IsDigit(digits[0]) && ReadNat(digits + rest) == Some((n, rest))
    ensures ReadInt(digits + rest) == Some((n, rest))
    ensures ReadInt("-" + digits + rest) == Some((0 - n, rest))
  {
    assert (digits + rest)[0] == digits[0];
    assert ("-" + digits + rest)[1..] == digits + rest;
  }

  lemma IntRead(n: int, rest: string)
    requires rest != "" && !IsDigit(rest[0])
    ensures ReadInt(Decimal(n) + rest) == Some((n, rest))
  {
    var size: nat := if n < 0 then -n else n;
    NatRead(size, rest);
    SignRead(Digits(size), size, rest);
  }

  // ---- strings ----

  function HexDigit(n: nat): char
    requires n < 16
  {
    if n < 10 then ('0' as int + n) as char else ('a' as int + (n - 10)) as char
  }

  function HexValue(c: char): (v: Option<nat>)
    ensures v.Some? ==> v.value < 16
  {
    if '0' <= c <= '9' then Some(c as int - '0' as int)
    else if 'a' <= c <= 'f' then Some(c as int - 'a' as int + 10)
    else if 'A' <= c <= 'F' then Some(c as int - 'A' as int + 10)
    else None
  }

  /** A 16-bit value as a JSON escape. */
  function Unit(n: nat): (text: string)
    requires n < 0x10000
    ensures |text| == 6 && text[0] == '\\' && text[1] == 'u'
  {
    "\\u" + [HexDigit(n / 16 / 16 / 16), HexDigit(n / 16 / 16 % 16), HexDigit(n / 16 % 16), HexDigit(n % 16)]
  }

  function Times16(high: nat, low: nat): nat {
    high * 16 + low
  }

  function ReadUnit(text: string): (n: Option<nat>)
    ensures n.Some? ==> n.value < 0x10000 && 6 <= |text|
  {
    if |text| < 6 || text[0] != '\\' || text[1] != 'u' then None
    else
      match (HexValue(text[2]), HexValue(text[3]), HexValue(text[4]), HexValue(text[5]))
      case (Some(p), Some(q), Some(r), Some(s)) => Some(Times16(Times16(Times16(p, q), r), s))
      case _ => None
  }

  predicate HighSurrogate(n: int) {
    0xD800 <= n < 0xDC00
  }

  predicate LowSurrogate(n: int) {
    0xDC00 <= n < 0xE000
  }

  /** The letter after the backslash in the short escape of a character. */
  function ShortLetter(c: char): Option<char> {
    if c == '"' || c == '\\' then Some(c)
    else if c == '\n' then Some('n')
    else if c == '\r' then Some('r')
    else if c == '\t' then Some('t')
    else if c == 8 as char then Some('b')
    else if c == 12 as char then Some('f')
    else None
  }

  function ShortEscape(letter: char): Option<char> {
    if letter == '"' || letter == '\\' || letter == '/' then Some(letter)
    else if letter == 'n' then Some('\n')
    else if letter == 'r' then Some('\r')
    else if letter == 't' then Some('\t')
    else if letter == 'b' then Some(8 as char)
    else if letter == 'f' then Some(12 as char)
    else None
  }

  function High(c: char): (n: nat)
    requires 0x10000 <= c as int
    ensures HighSurrogate(n)
  {
    0xD800 + (c as int - 0x10000) / 0x400
  }

  function Low(c: char): (n: nat)
    requires 0x10000 <= c as int
    ensures LowSurrogate(n)
  {
    0xDC00 + (c as int - 0x10000) % 0x400
  }

  /** A character beyond 16 bits is two surrogates. */
  function Pair(c: char): (text: string)
    requires 0x10000 <= c as int
    ensures |text| == 12
  {
    Unit(High(c)) + Unit(Low(c))
  }

  /** Printable ASCII stands for itself, except quote and backslash; the rest is escaped. */
  function EscapeChar(c: char): (text: string)
    ensures text != ""
  {
    if ShortLetter(c).Some? then ['\\', ShortLetter(c).value]
    else if ' ' <= c <= '~' then [c]
    else if c as int < 0x10000 then Unit(c as int)
    else Pair(c)
  }

  function Escape(s: string): string {
    if s == "" then "" else EscapeChar(s[0]) + Escape(s[1..])
  }

  function Combined(high: nat, low: nat): char
    requires HighSurrogate(high) && LowSurrogate(low)
  {
    (0x10000 + (high - 0xD800) * 0x400 + (low - 0xDC00)) as char
  }

  /** The character that a `\u` escape at the front stands for, with the length of the escape. A surrogate
      without its partner stands for none. */
  function ReadUnicode(text: string): (r: Option<(char, nat)>)
    ensures r.Some? ==> 0 < r.value.1 <= |text|
  {
    match ReadUnit(text)
    case None => None
    case Some(n) =>
      if HighSurrogate(n) then
        match ReadUnit(text[6..])
        case Some(m) =>
          if LowSurrogate(m) then Some((Combined(n, m), 12)) else None
        case None => None
      else if LowSurrogate(n) then None
      else Some((n as char, 6))
  }

  /** The first character of a JSON string body, with the length of its spelling. */
  function ReadChar(text: string): (r: Option<(char, nat)>)
    requires text != "" && text[0] != '"'
    ensures r.Some? ==> 0 < r.value.1 <= |text|
  {
    if text[0] < ' ' then None
    else if text[0] != '\\' then Some((text[0], 1))
    else if |text| == 1 then None
    else if ShortEscape(text[1]).Some? then Some((ShortEscape(text[1]).value, 2))
    else ReadUnicode(text)
  }

  /** The string up to the closing quote, and what follows the quote. */
  function ReadString(text: string): Option<(string, string)>
    decreases |text|
  {
    if text == "" then None
    else if text[0] == '"' then Some(("", text[1..]))
    else
      match ReadChar(text)
      case None => None
      case Some((c, used)) =>
        match ReadString(text[used..])
        case None => None
        case Some((s, rest)) => Some(([c] + s, rest))
  }

  lemma HexRead(n: nat)
    requires n < 16
    ensures HexValue(HexDigit(n)) == Some(n)
  {
  }

  lemma UnitRead(n: nat, rest: string)
    requires n < 0x10000
    ensures ReadUnit(Unit(n) + rest) == Some(n)
  {
    HexRead(n / 16 / 16 / 16);
    HexRead(n / 16 / 16 % 16);
    HexRead(n / 16 % 16);
    HexRead(n % 16);
    assert forall i :: 0 <= i < 6 ==> (Unit(n) + rest)[i] == Unit(n)[i];
  }

  lemma UnicodeRead(c: char, rest: string)
    requires c as int < 0x10000
    ensures ReadUnicode(Unit(c as int) + rest) == Some((c, 6))
  {
    UnitRead(c as int, rest);
  }

  lemma SurrogatesRead(high: nat, low: nat, rest: string)
    requires HighSurrogate(high) && LowSurrogate(low)
    ensures ReadUnicode(Unit(high) + Unit(low) + rest) == Some((Combined(high, low), 12))
  {
    UnitRead(high, Unit(low) + rest);
    UnitRead(low, rest);
    assert Unit(high) + Unit(low) + rest == Unit(high) + (Unit(low) + rest);
    assert (Unit(high) + (Unit(low) + rest))[6..] == Unit(low) + rest;
  }

  lemma SurrogatesCombine(c: char)
    requires 0x10000 <= c as int
    ensures Combined(High(c), Low(c)) == c
  {
    var n := c as int - 0x10000;
    assert n == n / 0x400 * 0x400 + n % 0x400;
  }

  lemma PairRead(c: char, rest: string)
    requires 0x10000 <= c as int
    ensures ReadUnicode(Pair(c) + rest) == Some((c, 12))
  {
    SurrogatesCombine(c);
    SurrogatesRead(High(c), Low(c), rest);
  }

  lemma ShortRead(c: char, rest: string)
    requires ShortLetter(c).Some?
    ensures ReadChar(['\\', ShortLetter(c).value] + rest) == Some((c, 2))
  {
    var text := ['\\', ShortLetter(c).value] + rest;
    assert text[0] == '\\' && text[1] == ShortLetter(c).value;
    assert ShortEscape(ShortLetter(c).value) == Some(c);
  }

  /** An escape that begins like a 16-bit one is read as such. */
  lemma LongRead(escape: string, c: char, rest: string)
    requires 2 <= |escape| && escape[0] == '\\' && escape[1] == 'u'
    requires ReadUnicode(escape + rest) == Some((c, |escape|))
    ensures ReadChar(escape + rest) == Some((c, |escape|))
  {
    var text := escape + rest;
    assert text[0] == '\\' && text[1] == 'u';
  }

  lemma CharRead(c: char, rest: string)
    ensures EscapeChar(c)[0] != '"'
    ensures ReadChar(EscapeChar(c) + rest) == Some((c, |EscapeChar(c)|))
  {
    if ShortLetter(c).Some? {
      ShortRead(c, rest);
    } else if ' ' <= c <= '~' {
      assert ([c] + rest)[0] == c;
    } else if c as int < 0x10000 {
      UnicodeRead(c, rest);
      LongRead(Unit(c as int), c, rest);
    } else {
      PairRead(c, rest);
      LongRead(Pair(c), c, rest);
    }
  }

  lemma ReadStringStep(escape: string, c: char, tail: string, s: string, rest: string)
    requires escape != "" && escape[0] != '"'
    requires ReadChar(escape + tail) == Some((c, |escape|))
    requires ReadString(tail) == Some((s, rest))
    ensures ReadString(escape + tail) == Some(([c] + s, rest))
  {
    assert (escape + tail)[|escape|..] == tail;
  }

  lemma {:induction false} StringRead(s: string, rest: string)
    ensures ReadString(Escape(s) + "\"" + rest) == Some((s, rest))
  {
    if s == "" {
      assert Escape(s) + "\"" + rest == "\"" + rest;
    } else {
      var tail := Escape(s[1..]) + "\"" + rest;
      assert Escape(s) + "\"" + rest == EscapeChar(s[0]) + tail;
      CharRead(s[0], tail);
      StringRead(s[1..], rest);
      ReadStringStep(EscapeChar(s[0]), s[0], tail, s[1..], rest);
      assert [s[0]] + s[1..] == s;
    }
  }

  // ---- the cursor ----

  const OPENING := "{\"created_at\":\""
  const MIDDLE := ",\"id\":"

  function ToJson(k: Key): string {
    OPENING + (Escape(k.createdAt) + "\"" + (MIDDLE + (Decimal(k.id) + "}")))
  }

  function After(text: string, prefix: string): Option<string> {
    if prefix <= text then Some(text[|prefix|..]) else None
  }

  function FromJson(text: string): Option<Key> {
    match After(text, OPENING)
    case None => None
    case Some(body) =>
      match ReadString(body)
      case None => None
      case Some((createdAt, rest)) =>
        match After(rest, MIDDLE)
        case None => None
        case Some(number) =>
          match ReadInt(number)
          case None => None
          case Some((id, end)) => if end == "}" then Some(Key(createdAt, id)) else None
  }

  lemma AfterPrefix(prefix: string, rest: string)
    ensures After(prefix + rest, prefix) == Some(rest)
  {
    assert (prefix + rest)[|prefix|..] == rest;
  }

  lemma JsonRead(k: Key)
    ensures FromJson(ToJson(k)) == Some(k)
  {
    var number := Decimal(k.id) + "}";
    var body := Escape(k.createdAt) + "\"" + (MIDDLE + number);
    AfterPrefix(OPENING, body);
    StringRead(k.createdAt, MIDDLE + number);
    AfterPrefix(MIDDLE, number);
    IntRead(k.id, "}");
  }

  function EncodeCursor(k: Key): string {
    Base64Url.Encode(Utf8.Encode(ToJson(k)))
  }

  /** An absent or empty cursor asks for the first page. */
  function DecodeCursor(cursor: Option<string>): Result<Option<Key>, CursorError> {
    if cursor.None? || cursor.value == "" then Success(None)
    else
      match Base64Url.Decode(cursor.value)
      case None => Failure(InvalidCursor)
      case Some(bytes) =>
        match Utf8.Decode(bytes)
        case None => Failure(InvalidCursor)
        case Some(text) =>
          match FromJson(text)
          case None => Failure(InvalidCursor)
          case Some(k) => Success(Some(k))
  }

  /** Every cursor handed out is non-empty, safe in a URL as it is, and read back as the row it came from. */
  lemma CursorRoundTrip(k: Key)
    ensures DecodeCursor(Some(EncodeCursor(k))) == Success(Some(k))
    ensures EncodeCursor(k) != "" && forall c :: c in EncodeCursor(k) ==> Base64Url.UrlSafe(c)
  {
    var bytes := Utf8.Encode(ToJson(k));
    assert bytes == Utf8.CharBytes(ToJson(k)[0]) + Utf8.Encode(ToJson(k)[1..]);
    Base64Url.EncodeIsUrlSafe(bytes);
    Base64Url.DecodeEncode(bytes);
    Utf8.DecodeEncode(ToJson(k));
    JsonRead(k);
  }

  /** Only a request without a cursor gets the first page; a cursor that names a row is the base64 of the UTF-8
      bytes of a JSON text that names it, and any other cursor is refused. */
  lemma CursorIsRead(cursor: Option<string>)
    ensures DecodeCursor(cursor) == Success(None) <==> cursor.None? || cursor.value == ""
    ensures DecodeCursor(cursor) == Failure(InvalidCursor) <==>
            && cursor.Some? && cursor.value != ""
            && forall text, k :: !Names(cursor.value, text, k)
    ensures forall k :: DecodeCursor(cursor) == Success(Some(k)) ==>
                          cursor.Some? && exists text :: Names(cursor.value, text, k)
  {
    if cursor.Some? && cursor.value != "" && Base64Url.Decode(cursor.value).Some? {
      BytesName(cursor.value, Base64Url.Decode(cursor.value).value);
    }
  }

  ghost predicate Names(cursor: string, text: string, k: Key) {
    Base64Url.Decode(cursor) == Some(Utf8.Encode(text)) && FromJson(text) == Some(k)
  }

  lemma BytesName(cursor: string, bytes: seq<Byte>)
    requires Base64Url.Decode(cursor) == Some(bytes)
    ensures forall text, k :: Names(cursor, text, k) ==>
                                Utf8.Decode(bytes) == Some(text) && FromJson(text) == Some(k)
    ensures Utf8.Decode(bytes).Some? && FromJson(Utf8.Decode(bytes).value).Some? ==>
              Names(cursor, Utf8.Decode(bytes).value, FromJson(Utf8.Decode(bytes).value).value)
  {
    forall text, k | Names(cursor, text, k) ensures Utf8.Decode(bytes) == Some(text) {
      Utf8.DecodeEncode(text);
    }
    if Utf8.Decode(bytes).Some? {
      Utf8.EncodeDecode(bytes);
    }
  }

  lemma EscapeSample()
    ensures Escape("a\"b") == "a\\\"b"
  {
    assert "a\"b"[1..] == "\"b" && "\"b"[1..] == "b" && "b"[1..] == "";
    assert Escape("b") == "b";
    assert Escape("\"b") == "\\\"b";
  }

  lemma DecimalSample()
    ensures Decimal(-12) == "-12"
  {
    assert Digits(1) == "1" && Digits(12) == Digits(1) + "2";
  }

  /** The cursor's JSON as it is written: keys in this order, no spaces, and quotes escaped. */
  lemma JsonSample()
    ensures ToJson(Key("a\"b", -12)) == "{\"created_at\":\"a\\\"b\",\"id\":-12}"
  {
    EscapeSample();
    DecimalSample();
  }
}
