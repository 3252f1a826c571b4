/**
 * The opaque mail cursor (internal/mailpaging/cursor.go): a JSON record in unpadded base64url, bound to the scope of its query.
 * Only the JSON shape `Encode` emits is read back, with all of its string escapes.
 */
module MailCursor {
  import opened GoStrings
  import opened Bytes
  import Utf8
  import Base64Url

  const MAX_INT: int := 0x7fff_ffff_ffff_ffff

  /** A Go `int`. */
  type GoInt = x: int | -0x8000_0000_0000_0000 <= x <= 0x7fff_ffff_ffff_ffff

  datatype Cursor = Cursor(version: GoInt, scope: seq<byte>, token: seq<byte>, seen: GoInt)

  // ---- Strings in JSON ----

  function LowerHex(v: int): (b: byte)
    requires 0 <= v < 16
  {
    if v < 10 then 48 + v else 87 + v
  }

  /** `\uXXXX`; 92 is the backslash and 117 the `u`. */
  function UnicodeEscape(v: int): (r: seq<byte>)
    requires 0 <= v < 0x1_0000
  {
    [92, 117, LowerHex(v / 0x1000), LowerHex(v / 0x100 % 16), LowerHex(v / 16 % 16), LowerHex(v % 16)]
  }

  /** The second byte of a two-byte escape, if the rune has one: \" \\ \b \f \n \r \t. */
  function ShortEscape(v: int): Option<byte> {
    if v == 34 || v == 92 then Some(v)
    else if v == 8 then Some(98)
    else if v == 12 then Some(102)
    else if v == 10 then Some(110)
    else if v == 13 then Some(114)
    else if v == 9 then Some(116)
    else None
  }

  /** Control characters, the HTML characters `<`, `>`, `&`, and the two line separators. */
  predicate NeedsUnicodeEscape(v: int) {
    v < 0x20 || v == 60 || v == 62 || v == 38 || v == 0x2028 || v == 0x2029
  }

  function EscapeRune(c: char): (r: seq<byte>)
    ensures r != [] && r[0] != 34
  {
    var v: int := c as int;
    if ShortEscape(v).Some? then [92, ShortEscape(v).value]
    else if NeedsUnicodeEscape(v) then UnicodeEscape(v)
    else
      assert Utf8.RuneBytes(c)[0] != 34;
      Utf8.RuneBytes(c)
  }

  /**
   * The control characters below U+0020, the quote, the backslash, the three HTML characters and the two line separators are
   * escaped; every other rune is written as it is.
   */
  lemma EscapeRuneIs(c: char)
    ensures var v := c as int;
            EscapeRune(c) != Utf8.RuneBytes(c) <==> v <= 0x1F || c in "\"\\<>&" || v == 0x2028 || v == 0x2029
    ensures EscapeRune('\"') == Ascii("\\\"") && EscapeRune('\\') == Ascii("\\\\") && EscapeRune('\n') == Ascii("\\n")
    ensures EscapeRune('<') == Ascii("\\u003c") && EscapeRune('&') == Ascii("\\u0026")
  {
    assert EscapeRune(c) != Utf8.RuneBytes(c) <==> ShortEscape(c as int).Some? || NeedsUnicodeEscape(c as int) by {
      assert Utf8.RuneBytes(c)[0] == 92 ==> c == '\\';
    }
    assert '<' as int == 60 && '&' as int == 38;
  }

  /** The body of a string literal; a byte that is not valid UTF-8 becomes `\ufffd`. */
  function Escape(s: seq<byte>): (r: seq<byte>) {
    if s == [] then []
    else if Utf8.RuneLength(s) == 0 then UnicodeEscape(0xFFFD) + Escape(s[1..])
    else EscapeRune(Utf8.RuneAt(s)) + Escape(s[Utf8.RuneLength(s)..])
  }

  /** What a string becomes by way of JSON: every invalid byte is replaced. */
  function Sanitized(s: seq<byte>): (r: seq<byte>) {
    if s == [] then []
    else if Utf8.RuneLength(s) == 0 then Utf8.RuneBytes('\U{FFFD}') + Sanitized(s[1..])
    else Utf8.RuneBytes(Utf8.RuneAt(s)) + Sanitized(s[Utf8.RuneLength(s)..])
  }

  function ReadHex4(s: seq<byte>): (r: Option<int>)
    ensures r.Some? ==> 4 <= |s| && 0 <= r.value < 0x1_0000
  {
    if |s| < 4 then None
    else
      var a, b, c, d := HexValue(s[0]), HexValue(s[1]), HexValue(s[2]), HexValue(s[3]);
      if a.Some? && b.Some? && c.Some? && d.Some? then
        Some(a.value * 0x1000 + b.value * 0x100 + c.value * 16 + d.value)
      else None
  }

  function ShortEscapeValue(b: byte): Option<char> {
    if b == 34 then Some('\"')
    else if b == 92 then Some('\\')
    else if b == 47 then Some('/')
    else if b == 98 then Some(8 as char)
    else if b == 102 then Some(12 as char)
    else if b == 110 then Some('\n')
    else if b == 114 then Some('\r')
    else if b == 116 then Some('\t')
    else None
  }

  /** One element of a string literal: the rune it stands for and its length. Invalid bytes and lone surrogates read as U+FFFD. */
  function ReadElement(s: seq<byte>): (r: Option<(char, nat)>)
    requires s != []
    ensures r.Some? ==> 0 < r.value.1 <= |s|
  {
    if s[0] == 92 then
      if |s| < 2 then None
      else if s[1] == 117 then
        match ReadHex4(s[2..])
        case None => None
        case Some(v) =>
          if v < 0xD800 || 0xE000 <= v then Some((v as char, 6))
          else
            var low := if v < 0xDC00 && 8 <= |s| && s[6] == 92 && s[7] == 117 then ReadHex4(s[8..]) else None;
            if low.Some? && 0xDC00 <= low.value < 0xE000 then
              Some(((0x1_0000 + (v - 0xD800) * 0x400 + (low.value - 0xDC00)) as char, 12))
            else Some(('\U{FFFD}', 6))
      else
        match ShortEscapeValue(s[1])
        case None => None
        case Some(c) => Some((c, 2))
    else if s[0] < 0x20 then None
    else if Utf8.RuneLength(s) == 0 then Some(('\U{FFFD}', 1))
    else Some((Utf8.RuneAt(s), Utf8.RuneLength(s)))
  }

  /** Reads up to the closing quote. */
  function ReadString(s: seq<byte>): Option<(seq<byte>, seq<byte>)>
    decreases |s|
  {
    if s == [] then None
    else if s[0] == 34 then Some(([], s[1..]))
    else
      match ReadElement(s)
      case None => None
      case Some((c, n)) =>
        match ReadString(s[n..])
        case None => None
        case Some((value, rest)) => Some((Utf8.RuneBytes(c) + value, rest))
  }

  lemma UnicodeEscapeRoundTrip(v: int, rest: seq<byte>)
    requires 0 <= v < 0xD800 || 0xE000 <= v < 0x1_0000
    ensures ReadElement(UnicodeEscape(v) + rest) == Some((v as char, 6))
  {
    var s := UnicodeEscape(v) + rest;
    Hex4RoundTrip(v, s[2..]);
  }

  lemma Hex4RoundTrip(v: int, s: seq<byte>)
    requires 0 <= v < 0x1_0000 && 4 <= |s| && s[0] == LowerHex(v / 0x1000) && s[1] == LowerHex(v / 0x100 % 16)
    requires s[2] == LowerHex(v / 16 % 16) && s[3] == LowerHex(v % 16)
    ensures ReadHex4(s) == Some(v)
  {
    LowerHexRoundTrip(v / 0x1000);
    LowerHexRoundTrip(v / 0x100 % 16);
    LowerHexRoundTrip(v / 16 % 16);
    LowerHexRoundTrip(v % 16);
    Nibbles(v);
  }

  lemma LowerHexRoundTrip(v: int)
    requires 0 <= v < 16
    ensures HexValue(LowerHex(v)) == Some(v)
  {
  }

  lemma EscapeRoundTrip(c: char, rest: seq<byte>)
    ensures ReadElement(EscapeRune(c) + rest) == Some((c, |EscapeRune(c)|))
  {
    var v := c as int;
    var s := EscapeRune(c) + rest;
    if ShortEscape(v).Some? {
      assert s[0] == 92 && s[1] == ShortEscape(v).value;
    } else if NeedsUnicodeEscape(v) {
      UnicodeEscapeRoundTrip(v, rest);
    } else {
      Utf8.RuneRoundTrip(c, rest);
      assert s[0] == Utf8.RuneBytes(c)[0];
    }
  }

  /** Reading a string whose first element is `element`, which stands for `c`. */
  lemma ReadStringStep(element: seq<byte>, c: char, tail: seq<byte>, value: seq<byte>, rest: seq<byte>, after: seq<byte>)
    requires element != [] && element[0] != 34 && ReadElement(element + (tail + [34] + rest)) == Some((c, |element|))
    requires ReadString(tail + [34] + rest) == Some((value, after))
    ensures ReadString(element + tail + [34] + rest) == Some((Utf8.RuneBytes(c) + value, after))
  {
    var s := element + (tail + [34] + rest);
    assert s == element + tail + [34] + rest;
    assert s[|element|..] == tail + [34] + rest;
    assert s[0] == element[0];
  }

  lemma {:induction false} StringRoundTrip(s: seq<byte>, rest: seq<byte>)
    ensures ReadString(Escape(s) + [34] + rest) == Some((Sanitized(s), rest))
  {
    if s == [] {
      assert ([] + [34] + rest)[1..] == rest;
    } else {
      var invalid := Utf8.RuneLength(s) == 0;
      var c := if invalid then '\U{FFFD}' else Utf8.RuneAt(s);
      var element := if invalid then UnicodeEscape(0xFFFD) else EscapeRune(c);
      var s' := if invalid then s[1..] else s[Utf8.RuneLength(s)..];
      var tail := Escape(s') + [34] + rest;
      if invalid {
        UnicodeEscapeRoundTrip(0xFFFD, tail);
      } else {
        EscapeRoundTrip(c, tail);
      }
      StringRoundTrip(s', rest);
      ReadStringStep(element, c, Escape(s'), Sanitized(s'), rest, rest);
    }
  }

  /** JSON changes exactly the strings that are not valid UTF-8. */
  lemma {:induction false} SanitizedIsIdentity(s: seq<byte>)
    ensures Utf8.Valid(Sanitized(s))
    ensures Sanitized(s) == s <==> Utf8.Valid(s)
  {
    if s != [] {
      var n := Utf8.RuneLength(s);
      var c := if n == 0 then '\U{FFFD}' else Utf8.RuneAt(s);
      var tail := if n == 0 then s[1..] else s[n..];
      SanitizedIsIdentity(tail);
      Utf8.RuneRoundTrip(c, Sanitized(tail));
      if n > 0 {
        Utf8.BytesRoundTrip(s);
        assert s == s[..n] + tail;
        assert Sanitized(s)[n..] == Sanitized(tail) && s[n..] == tail;
      }
    }
  }

  // ---- The record ----

  /** The literal parts between the four fields. */
  datatype Frame = Frame(open: seq<byte>, scope: seq<byte>, token: seq<byte>, seen: seq<byte>, close: seq<byte>) {
    predicate Sound() {
      scope != [] && !IsDigit(scope[0]) && close != [] && !IsDigit(close[0])
    }
  }

  const FRAME := Frame(
    Ascii("{\"version\":"), Ascii(",\"scope\":\""), Ascii(",\"token\":\""), Ascii(",\"seen\":"), Ascii("}"))

  /** What the reader looks for, in its own spelling. */
  const RECORD := Frame(
    [123] + Ascii("\"version\"") + [58], [44] + Ascii("\"scope\"") + [58, 34], [44] + Ascii("\"token\"") + [58, 34],
    [44] + Ascii("\"seen\"") + [58], [125])

  lemma FramesAgree()
    ensures FRAME == RECORD
  {
  }

  function JsonSeen(frame: Frame, seen: nat): (r: seq<byte>) {
    frame.seen + (Decimal(seen) + frame.close)
  }

  function JsonToken(frame: Frame, token: seq<byte>, seen: nat): (r: seq<byte>) {
    frame.token + (Escape(token) + [34] + JsonSeen(frame, seen))
  }

  function JsonScope(frame: Frame, scope: seq<byte>, token: seq<byte>, seen: nat): (r: seq<byte>) {
    frame.scope + (Escape(scope) + [34] + JsonToken(frame, token, seen))
  }

  function Json(frame: Frame, version: nat, scope: seq<byte>, token: seq<byte>, seen: nat): (r: seq<byte>) {
    frame.open + (Decimal(version) + JsonScope(frame, scope, token, seen))
  }

  /** A name and its string value. */
  function ReadField(name: seq<byte>, s: seq<byte>): Option<(seq<byte>, seq<byte>)> {
    match Expect(name, s)
    case None => None
    case Some(value) => ReadString(value)
  }

  /** A name and its number, which has to fit a Go `int` and has no leading zeros. */
  function ReadNumber(name: seq<byte>, s: seq<byte>): Option<(GoInt, seq<byte>)> {
    match Expect(name, s)
    case None => None
    case Some(value) =>
      match ReadDecimal(value)
      case None => None
      case Some((n, rest)) => if MAX_INT < n || value != Decimal(n) + rest then None else Some((n, rest))
  }

  /** The decoder on that shape; nothing may follow. */
  function ReadJson(frame: Frame, s: seq<byte>): Option<Cursor> {
    match ReadNumber(frame.open, s)
    case None => None
    case Some((version, afterVersion)) =>
      match ReadField(frame.scope, afterVersion)
      case None => None
      case Some((scope, afterScope)) =>
        match ReadField(frame.token, afterScope)
        case None => None
        case Some((token, afterToken)) =>
          match ReadNumber(frame.seen, afterToken)
          case None => None
          case Some((seen, rest)) => if rest == frame.close then Some(Cursor(version, scope, token, seen)) else None
  }

  lemma FieldRoundTrip(name: seq<byte>, value: seq<byte>, rest: seq<byte>)
    ensures ReadField(name, name + (Escape(value) + [34] + rest)) == Some((Sanitized(value), rest))
  {
    ExpectOwn(name, Escape(value) + [34] + rest);
    StringRoundTrip(value, rest);
  }

  lemma NumberRoundTrip(name: seq<byte>, n: nat, rest: seq<byte>)
    requires n <= MAX_INT && rest != [] && !IsDigit(rest[0])
    ensures ReadNumber(name, name + (Decimal(n) + rest)) == Some((n, rest))
  {
    ExpectOwn(name, Decimal(n) + rest);
    ReadOwnDecimal(n, rest);
  }

  lemma JsonRoundTrip(frame: Frame, version: nat, scope: seq<byte>, token: seq<byte>, seen: nat)
    requires frame.Sound() && version <= MAX_INT && seen <= MAX_INT
    ensures ReadJson(frame, Json(frame, version, scope, token, seen))
         == Some(Cursor(version, Sanitized(scope), Sanitized(token), seen))
  {
    NumberRoundTrip(frame.open, version, JsonScope(frame, scope, token, seen));
    FieldRoundTrip(frame.scope, scope, JsonToken(frame, token, seen));
    FieldRoundTrip(frame.token, token, JsonSeen(frame, seen));
    NumberRoundTrip(frame.seen, seen, frame.close);
  }

  // ---- The cursor ----

  predicate ValidToken(token: seq<byte>) {
    && token != [] && |token| <= 4096 && Utf8.Valid(token)
    && forall c :: c in Utf8.Decode(token) ==> !IsControl(c)
  }

  /** On runes: one to 4096 bytes without control characters; and bytes that are no runes are no token. */
  lemma ValidTokenIs(token: string)
    ensures ValidToken(Utf8.Encode(token))
       <==> && token != "" && |Utf8.Encode(token)| <= 4096
            && forall k :: 0 <= k < |token| ==> 0x20 <= token[k] as int <= 0x7E || 0xA0 <= token[k] as int
  {
    Utf8.EncodeIsValid(token);
    assert Utf8.Encode(token) == [] <==> token == "";
    assert (forall c :: c in token ==> !IsControl(c)) <==> forall k :: 0 <= k < |token| ==> !IsControl(token[k]);
  }

  lemma ValidTokenIsText(bytes: seq<byte>)
    ensures ValidToken(bytes) ==> exists t :: bytes == Utf8.Encode(t)
  {
    if ValidToken(bytes) {
      Utf8.ValidIsEncoded(bytes);
      assert bytes == Utf8.Encode(Utf8.Decode(bytes));
    }
  }

  const LIMIT := 8192

  function Encode(scope: seq<byte>, token: seq<byte>, seen: GoInt): Option<seq<byte>> {
    if !ValidToken(token) || seen < 0 then None
    else
      var out := Base64Url.Encode(Json(FRAME, 1, scope, token, seen));
      if LIMIT < |out| then None else Some(out)
  }

  const ZERO := Cursor(0, [], [], 0)

  /** An empty cursor is the start of the listing, whatever the scope. */
  function Decode(scope: seq<byte>, raw: seq<byte>): Option<Cursor> {
    if raw == [] then Some(ZERO)
    else if LIMIT < |raw| then None
    else
      match Base64Url.Decode(raw)
      case None => None
      case Some(json) =>
        match ReadJson(RECORD, json)
        case None => None
        case Some(c) => if c.version != 1 || c.scope != scope || !ValidToken(c.token) || c.seen < 0 then None else Some(c)
  }

  /** No cursor, and one that is too long. */
  lemma SpecialCursors(scope: seq<byte>, raw: seq<byte>)
    ensures Decode(scope, []) == Some(Cursor(0, [], [], 0))
    ensures 8192 < |raw| ==> Decode(scope, raw) == None
  {
  }

  lemma FrameIsSound()
    ensures FRAME.Sound()
  {
  }

  /** Encoding fails exactly on invalid input and on records whose escaped JSON exceeds 6144 bytes. */
  lemma EncodeLimit(scope: seq<byte>, token: seq<byte>, seen: GoInt)
    ensures Encode(scope, token, seen).Some?
       <==> ValidToken(token) && 0 <= seen && |Json(FRAME, 1, scope, token, seen)| <= 6144
  {
    if 0 <= seen {
      Base64Url.EncodeShape(Json(FRAME, 1, scope, token, seen));
    }
  }

  /**
   * What decoding makes of an encoded cursor, for every scope: it is accepted under exactly one, the encoded scope with its
   * invalid bytes replaced, and then carries version 1 and the token and count it was made from.
   */
  lemma CursorBindsScope(scope: seq<byte>, token: seq<byte>, seen: GoInt, other: seq<byte>)
    requires Encode(scope, token, seen).Some?
    ensures Decode(other, Encode(scope, token, seen).value)
         == if other == Sanitized(scope) then Some(Cursor(1, other, token, seen)) else None
  {
    var json := Json(FRAME, 1, scope, token, seen);
    FrameIsSound();
    FramesAgree();
    Base64Url.EncodeShape(json);
    Base64Url.RoundTrip(json);
    JsonRoundTrip(FRAME, 1, scope, token, seen);
    SanitizedIsIdentity(token);
    assert json != [];
  }

  /** So the round trip holds under the same scope, and under no other, exactly when the scope is valid UTF-8. */
  lemma CursorRoundTrip(scope: seq<byte>, token: seq<byte>, seen: GoInt)
    ensures match Encode(scope, token, seen)
            case None => true
            case Some(raw) =>
              && (Decode(scope, raw) == Some(Cursor(1, scope, token, seen)) <==> Utf8.Valid(scope))
              && (Utf8.Valid(scope) <==> forall other :: other != scope ==> Decode(other, raw) == None)
  {
    if Encode(scope, token, seen).Some? {
      SanitizedIsIdentity(scope);
      CursorBindsScope(scope, token, seen, scope);
      forall other | other != scope
        ensures Decode(other, Encode(scope, token, seen).value) == None <==> other != Sanitized(scope)
      {
        CursorBindsScope(scope, token, seen, other);
      }
      if !Utf8.Valid(scope) {
        assert Sanitized(scope) != scope && Decode(Sanitized(scope), Encode(scope, token, seen).value) != None;
      }
    }
  }

  /** The scopes in use are hexadecimal digests, which are always valid. */
  lemma DigestScopeRoundTrips(scope: seq<byte>, token: seq<byte>, seen: GoInt)
    requires forall k :: 0 <= k < |scope| ==> HexValue(scope[k]).Some?
    ensures Encode(scope, token, seen).Some? ==>
              Decode(scope, Encode(scope, token, seen).value) == Some(Cursor(1, scope, token, seen))
  {
    Utf8.AsciiIsValid(scope);
    CursorRoundTrip(scope, token, seen);
  }

  /** A scope of one stray continuation byte: a cursor is made for it, and then rejected for it. */
  lemma InvalidScopeDoesNotRoundTrip()
    ensures var raw := Encode([0x80], [97], 0); raw.Some? && Decode([0x80], raw.value) == None
  {
    assert Utf8.Decode([97]) == "a";
    assert |Escape([0x80])| == 6 + |Escape([])| && |Escape([97])| == 1 + |Escape([])|;
    EncodeLimit([0x80], [97], 0);
    assert !Utf8.Valid([0x80]);
    CursorRoundTrip([0x80], [97], 0);
    CursorBindsScope([0x80], [97], 0, [0x80]);
  }
}
