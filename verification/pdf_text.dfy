/**
 * `pdfHex` (providers/document_generation/pdf/renderer.go:45-54): a text string as a hexadecimal string of big-endian UTF-16
 * units behind a byte order mark, with its reader (ISO 32000-1 section 7.3.4.3, RFC 2781 sections 2.1 and 2.2).
 */
module PdfText {
  import opened GoStrings
  import opened Bytes

  type unit = x: int | 0 <= x < 0x1_0000

  // ---- UTF-16 ----

  function EncodeRune(c: char): (r: seq<unit>) {
    var v: int := c as int;
    if v < 0x1_0000 then [v]
    else
      var w: int := v - 0x1_0000;
      assert 0 <= w < 0x10_0000;
      [0xD800 + w / 0x400, 0xDC00 + w % 0x400]
  }

  function EncodeUtf16(s: string): (r: seq<unit>) {
    if s == "" then [] else EncodeRune(s[0]) + EncodeUtf16(s[1..])
  }

  function Pair(high: int, low: int): char
    requires 0xD800 <= high <= 0xDBFF && 0xDC00 <= low <= 0xDFFF
  {
    (0x1_0000 + (high - 0xD800) * 0x400 + (low - 0xDC00)) as char
  }

  /** RFC 2781 section 2.2; None on a surrogate out of place. */
  function DecodeUtf16(u: seq<unit>): Option<string> {
    if u == [] then Some("")
    else if u[0] < 0xD800 || 0xDFFF < u[0] then
      match DecodeUtf16(u[1..])
      case None => None
      case Some(rest) => Some([u[0] as char] + rest)
    else if u[0] <= 0xDBFF && 2 <= |u| && 0xDC00 <= u[1] <= 0xDFFF then
      match DecodeUtf16(u[2..])
      case None => None
      case Some(rest) => Some([Pair(u[0], u[1])] + rest)
    else None
  }

  lemma {:induction false} Utf16RoundTrip(s: string)
    ensures DecodeUtf16(EncodeUtf16(s)) == Some(s)
  {
    if s != "" {
      Utf16RoundTrip(s[1..]);
      var head, tail := EncodeRune(s[0]), EncodeUtf16(s[1..]);
      assert (head + tail)[|head|..] == tail;
      assert s == [s[0]] + s[1..];
    }
  }

  // ---- Hexadecimal ----

  function HexDigit(v: nat): byte
    requires v < 16
  {
    if v < 10 then 48 + v else 55 + v
  }

  /** In capitals. */
  lemma HexDigitIs(v: nat)
    requires v < 16
    ensures HexDigit(v) as char == "0123456789ABCDEF"[v]
  {
  }

  /** `%04X`. */
  function HexUnit(u: unit): (r: seq<byte>) {
    [HexDigit(u / 0x1000), HexDigit(u / 0x100 % 16), HexDigit(u / 16 % 16), HexDigit(u % 16)]
  }

  function ReadHexUnit(s: seq<byte>): Option<unit> {
    if |s| < 4 then None
    else
      var a, b, c, d := HexValue(s[0]), HexValue(s[1]), HexValue(s[2]), HexValue(s[3]);
      if a.Some? && b.Some? && c.Some? && d.Some? then
        Some(a.value * 0x1000 + b.value * 0x100 + c.value * 16 + d.value)
      else None
  }

  lemma HexUnitRoundTrip(u: unit, rest: seq<byte>)
    ensures ReadHexUnit(HexUnit(u) + rest) == Some(u)
  {
    var a, b, c, d := u / 0x1000, u / 0x100 % 16, u / 16 % 16, u % 16;
    var s := HexUnit(u) + rest;
    assert s[0] == HexDigit(a) && s[1] == HexDigit(b) && s[2] == HexDigit(c) && s[3] == HexDigit(d);
    HexDigitRoundTrip(a);
    HexDigitRoundTrip(b);
    HexDigitRoundTrip(c);
    HexDigitRoundTrip(d);
    Nibbles(u);
  }

  lemma HexDigitRoundTrip(v: nat)
    requires v < 16
    ensures HexValue(HexDigit(v)) == Some(v)
  {
  }

  function HexUnits(units: seq<unit>): (r: seq<byte>) {
    if units == [] then [] else HexUnits(units[..|units| - 1]) + HexUnit(units[|units| - 1])
  }

  const BOM := Ascii("<FEFF")

  function PdfHexOf(value: string): (r: seq<byte>) {
    BOM + HexUnits(EncodeUtf16(value)) + [62]
  }

  /** Reads units up to the closing `>`. */
  function ReadUnits(s: seq<byte>): Option<(seq<unit>, seq<byte>)> {
    if s != [] && s[0] == 62 then Some(([], s[1..]))
    else
      match ReadHexUnit(s)
      case None => None
      case Some(u) =>
        match ReadUnits(s[4..])
        case None => None
        case Some((units, rest)) => Some(([u] + units, rest))
  }

  /** What a UTF-16 hexadecimal string starts with: `<` and the byte order mark U+FEFF. */
  const MARK: seq<byte> := [60, 70, 69, 70, 70]

  function ReadHexString(s: seq<byte>): Option<(string, seq<byte>)> {
    match Expect(MARK, s)
    case None => None
    case Some(digits) =>
      match ReadUnits(digits)
      case None => None
      case Some((units, rest)) =>
        match DecodeUtf16(units)
        case None => None
        case Some(value) => Some((value, rest))
  }

  lemma HexUnitsSnoc(units: seq<unit>, last: unit)
    ensures HexUnits(units + [last]) == HexUnits(units) + HexUnit(last)
  {
    assert (units + [last])[..|units|] == units;
  }

  lemma {:induction false} HexUnitsCons(u: unit, units: seq<unit>)
    ensures HexUnits([u] + units) == HexUnit(u) + HexUnits(units)
  {
    if units == [] {
      HexUnitsSnoc([], u);
      assert [u] + units == [] + [u];
    } else {
      var init, last := units[..|units| - 1], units[|units| - 1];
      HexUnitsCons(u, init);
      HexUnitsSnoc(init, last);
      HexUnitsSnoc([u] + init, last);
      assert units == init + [last] && [u] + units == [u] + init + [last];
      Associate(HexUnit(u), HexUnits(init), HexUnit(last));
    }
  }

  lemma {:induction false} ReadOwnUnits(units: seq<unit>, rest: seq<byte>)
    ensures ReadUnits(HexUnits(units) + [62] + rest) == Some((units, rest))
  {
    var s := HexUnits(units) + [62] + rest;
    if units == [] {
      assert s[1..] == rest;
    } else {
      HexUnitsCons(units[0], units[1..]);
      assert units == [units[0]] + units[1..];
      var tail := HexUnits(units[1..]) + [62] + rest;
      assert s == HexUnit(units[0]) + tail;
      HexUnitRoundTrip(units[0], tail);
      ReadOwnUnits(units[1..], rest);
      assert s[4..] == tail;
    }
  }

  lemma HexStringRoundTrip(value: string, rest: seq<byte>)
    ensures ReadHexString(PdfHexOf(value) + rest) == Some((value, rest))
  {
    var units := EncodeUtf16(value);
    assert BOM == MARK;
    assert PdfHexOf(value) + rest == MARK + (HexUnits(units) + [62] + rest);
    ExpectOwn(MARK, HexUnits(units) + [62] + rest);
    ReadOwnUnits(units, rest);
    Utf16RoundTrip(value);
  }

  /** One letter, */
  lemma ConcreteLetter()
    ensures PdfHexOf("A") == Ascii("<FEFF0041>")
  {
    assert EncodeUtf16("A") == [0x41] + EncodeUtf16("");
    HexUnitsCons(0x41, []);
    assert HexUnit(0x41) == [48, 48, 52, 49];
    assert HexUnits([0x41]) == [48, 48, 52, 49];
  }

  /** and one rune outside the Basic Multilingual Plane, as a surrogate pair. */
  lemma ConcretePair()
    ensures EncodeUtf16("\U{1F600}") == [0xD83D, 0xDE00]
  {
    assert EncodeUtf16("\U{1F600}") == EncodeRune('\U{1F600}') + EncodeUtf16("");
  }

  method PdfHex(value: string) returns (r: seq<byte>)
    ensures r == PdfHexOf(value)
  {
    var units := EncodeUtf16(value);
    var builder := Ascii("<FEFF");
    for k := 0 to |units|
      invariant builder == BOM + HexUnits(units[..k])
    {
      assert units[..k + 1][..k] == units[..k];
      builder := builder + HexUnit(units[k]);
    }
    assert units[..|units|] == units;
    builder := builder + [62];
    return builder;
  }
}
