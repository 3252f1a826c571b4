/** Unpadded base64url, Go's `base64.RawURLEncoding` (RFC 4648 section 5). */
module Base64Url {
  import opened GoStrings
  import opened Bytes

  function Digit(v: int): (b: byte)
    requires 0 <= v < 64
    ensures b != 10 && b != 13
  {
    if v < 26 then 65 + v
    else if v < 52 then 71 + v
    else if v < 62 then v - 4
    else if v == 62 then 45
    else 95
  }

  /** The alphabet of RFC 4648 section 5. */
  lemma AlphabetIs(v: int)
    requires 0 <= v < 64
    ensures Digit(v) as char == if v < 26 then "ABCDEFGHIJKLMNOPQRSTUVWXYZ"[v] else if v < 52 then "abcdefghijklmnopqrstuvwxyz"[v - 26]
                                else "0123456789-_"[v - 52]
  {
  }

  function DigitValue(b: byte): (r: Option<int>)
    ensures r.Some? ==> 0 <= r.value < 64
  {
    if 65 <= b <= 90 then Some(b - 65)
    else if 97 <= b <= 122 then Some(b - 71)
    else if 48 <= b <= 57 then Some(b + 4)
    else if b == 45 then Some(62)
    else if b == 95 then Some(63)
    else None
  }

  lemma DigitRoundTrip(v: int)
    requires 0 <= v < 64
    ensures DigitValue(Digit(v)) == Some(v)
  {
  }

  function Group(a: int, b: int, c: int): (r: seq<byte>)
    requires 0 <= a < 256 && 0 <= b < 256 && 0 <= c < 256
  {
    [Digit(a / 4), Digit(a % 4 * 16 + b / 16), Digit(b % 16 * 4 + c / 64), Digit(c % 64)]
  }

  /** `EncodeToString`. */
  function Encode(s: seq<byte>): (r: seq<byte>) {
    if s == [] then []
    else if |s| == 1 then Group(s[0], 0, 0)[..2]
    else if |s| == 2 then Group(s[0], s[1], 0)[..3]
    else Group(s[0], s[1], s[2]) + Encode(s[3..])
  }

  /** Three bytes, two and one. */
  lemma ConcreteEncodings()
    ensures Encode([77, 97, 110]) == Ascii("TWFu") && Encode([77, 97]) == Ascii("TWE") && Encode([77]) == Ascii("TQ")
  {
    assert [77, 97, 110][3..] == [];
  }

  /** Two to four digits give one to three bytes; bits left over at the end are ignored. */
  function Ungroup(v: seq<int>): (r: seq<byte>)
    requires 2 <= |v| <= 4 && forall k :: 0 <= k < |v| ==> 0 <= v[k] < 64
  {
    [v[0] * 4 + v[1] / 16]
    + (if 3 <= |v| then [v[1] % 16 * 16 + v[2] / 4] else [])
    + (if |v| == 4 then [v[2] % 4 * 64 + v[3]] else [])
  }

  function Values(s: seq<byte>): (r: Option<seq<int>>)
    ensures r.Some? ==> |r.value| == |s| && forall k :: 0 <= k < |r.value| ==> 0 <= r.value[k] < 64
  {
    if s == [] then Some([])
    else
      var v, rest := DigitValue(s[0]), Values(s[1..]);
      if v.Some? && rest.Some? then Some([v.value] + rest.value) else None
  }

  function DecodeDigits(s: seq<byte>): Option<seq<byte>> {
    if s == [] then Some([])
    else if |s| == 1 then None
    else
      var n := if |s| < 4 then |s| else 4;
      match Values(s[..n])
      case None => None
      case Some(v) =>
        match DecodeDigits(s[n..])
        case None => None
        case Some(rest) => Some(Ungroup(v) + rest)
  }

  /** The decoder skips line breaks anywhere. */
  function WithoutLineBreaks(s: seq<byte>): seq<byte> {
    if s == [] then []
    else if s[0] == 10 || s[0] == 13 then WithoutLineBreaks(s[1..])
    else [s[0]] + WithoutLineBreaks(s[1..])
  }

  /** `DecodeString`. */
  function Decode(s: seq<byte>): Option<seq<byte>> {
    DecodeDigits(WithoutLineBreaks(s))
  }

  /** The four sextets of a group. */
  function Sextets(a: int, b: int, c: int): (r: seq<int>)
    requires 0 <= a < 256 && 0 <= b < 256 && 0 <= c < 256
    ensures |r| == 4 && forall k :: 0 <= k < 4 ==> 0 <= r[k] < 64
  {
    [a / 4, a % 4 * 16 + b / 16, b % 16 * 4 + c / 64, c % 64]
  }

  lemma GroupValues(a: int, b: int, c: int, n: nat)
    requires 0 <= a < 256 && 0 <= b < 256 && 0 <= c < 256 && n <= 4
    ensures Values(Group(a, b, c)[..n]) == Some(Sextets(a, b, c)[..n])
  {
    var g, v := Group(a, b, c)[..n], Sextets(a, b, c)[..n];
    forall k | 0 <= k < n
      ensures DigitValue(g[k]) == Some(v[k])
    {
      DigitRoundTrip(v[k]);
    }
    ValuesOf(g, v);
  }

  lemma FirstByte(a: int, b: int)
    requires 0 <= a < 256 && 0 <= b < 256
    ensures a / 4 * 4 + (a % 4 * 16 + b / 16) / 16 == a
  {
    assert (a % 4 * 16 + b / 16) / 16 == a % 4;
  }

  lemma SecondByte(a: int, b: int, c: int)
    requires 0 <= a < 256 && 0 <= b < 256 && 0 <= c < 256
    ensures (a % 4 * 16 + b / 16) % 16 * 16 + (b % 16 * 4 + c / 64) / 4 == b
  {
    assert (a % 4 * 16 + b / 16) % 16 == b / 16;
    assert (b % 16 * 4 + c / 64) / 4 == b % 16;
  }

  lemma ThirdByte(b: int, c: int)
    requires 0 <= b < 256 && 0 <= c < 256
    ensures (b % 16 * 4 + c / 64) % 4 * 64 + c % 64 == c
  {
    assert (b % 16 * 4 + c / 64) % 4 == c / 64;
  }

  /** The bytes that a group's sextets stand for. */
  lemma SextetsJoin(a: int, b: int, c: int)
    requires 0 <= a < 256 && 0 <= b < 256 && 0 <= c < 256
    ensures var v := Sextets(a, b, c);
            v[0] * 4 + v[1] / 16 == a && v[1] % 16 * 16 + v[2] / 4 == b && v[2] % 4 * 64 + v[3] == c
  {
    FirstByte(a, b);
    SecondByte(a, b, c);
    ThirdByte(b, c);
  }

  lemma UngroupOf(v: seq<int>, a: int, b: int, c: int, n: nat)
    requires |v| == 4 && (forall k :: 0 <= k < 4 ==> 0 <= v[k] < 64) && 2 <= n <= 4
    requires 0 <= a < 256 && 0 <= b < 256 && 0 <= c < 256
    requires v[0] * 4 + v[1] / 16 == a && v[1] % 16 * 16 + v[2] / 4 == b && v[2] % 4 * 64 + v[3] == c
    ensures Ungroup(v[..n]) == [a, b, c][..n - 1]
  {
  }

  lemma GroupRoundTrip(a: int, b: int, c: int, n: nat)
    requires 0 <= a < 256 && 0 <= b < 256 && 0 <= c < 256 && 2 <= n <= 4
    ensures Values(Group(a, b, c)[..n]).Some?
    ensures Ungroup(Values(Group(a, b, c)[..n]).value) == [a, b, c][..n - 1]
  {
    GroupValues(a, b, c, n);
    SextetsJoin(a, b, c);
    UngroupOf(Sextets(a, b, c), a, b, c, n);
  }

  lemma {:induction false} ValuesOf(s: seq<byte>, v: seq<int>)
    requires |s| == |v| && forall k :: 0 <= k < |s| ==> DigitValue(s[k]) == Some(v[k])
    ensures Values(s) == Some(v)
  {
    if s != [] {
      ValuesOf(s[1..], v[1..]);
      assert v == [v[0]] + v[1..];
    }
  }

  lemma DecodeGroup(g: seq<byte>, rest: seq<byte>, block: seq<byte>, tail: seq<byte>)
    requires 2 <= |g| <= 4 && (|g| < 4 ==> rest == []) && Values(g).Some? && Ungroup(Values(g).value) == block
    requires DecodeDigits(rest) == Some(tail)
    ensures DecodeDigits(g + rest) == Some(block + tail)
  {
    assert (g + rest)[..|g|] == g && (g + rest)[|g|..] == rest;
  }

  lemma DecodeLast(g: seq<byte>, block: seq<byte>)
    requires 2 <= |g| <= 4 && Values(g).Some? && Ungroup(Values(g).value) == block
    ensures DecodeDigits(g) == Some(block)
  {
    DecodeGroup(g, [], block, []);
    assert g + [] == g && block + [] == block;
  }

  lemma OneByte(a: byte)
    ensures DecodeDigits(Group(a, 0, 0)[..2]) == Some([a])
  {
    GroupRoundTrip(a, 0, 0, 2);
    assert [a, 0, 0][..1] == [a];
    DecodeLast(Group(a, 0, 0)[..2], [a]);
  }

  lemma TwoBytes(a: byte, b: byte)
    ensures DecodeDigits(Group(a, b, 0)[..3]) == Some([a, b])
  {
    GroupRoundTrip(a, b, 0, 3);
    assert [a, b, 0][..2] == [a, b];
    DecodeLast(Group(a, b, 0)[..3], [a, b]);
  }

  lemma OneGroupMore(a: byte, b: byte, c: byte, s: seq<byte>)
    requires DecodeDigits(Encode(s)) == Some(s)
    ensures DecodeDigits(Group(a, b, c) + Encode(s)) == Some([a, b, c] + s)
  {
    GroupRoundTrip(a, b, c, 4);
    assert Group(a, b, c)[..4] == Group(a, b, c) && [a, b, c][..3] == [a, b, c];
    DecodeGroup(Group(a, b, c), Encode(s), [a, b, c], s);
  }

  lemma {:induction false} DigitsRoundTrip(s: seq<byte>)
    ensures DecodeDigits(Encode(s)) == Some(s)
  {
    if |s| == 1 {
      OneByte(s[0]);
      assert s == [s[0]];
    } else if |s| == 2 {
      TwoBytes(s[0], s[1]);
      assert s == [s[0], s[1]];
    } else if s != [] {
      DigitsRoundTrip(s[3..]);
      OneGroupMore(s[0], s[1], s[2], s[3..]);
      assert [s[0], s[1], s[2]] + s[3..] == s;
    }
  }

  lemma {:induction false} NoLineBreaks(s: seq<byte>)
    requires forall k :: 0 <= k < |s| ==> s[k] != 10 && s[k] != 13
    ensures WithoutLineBreaks(s) == s
  {
    if s != [] {
      NoLineBreaks(s[1..]);
    }
  }

  lemma {:induction false} EncodeShape(s: seq<byte>)
    ensures |Encode(s)| == (4 * |s| + 2) / 3
    ensures forall k :: 0 <= k < |Encode(s)| ==> Encode(s)[k] != 10 && Encode(s)[k] != 13
  {
    if 3 <= |s| {
      EncodeShape(s[3..]);
    }
  }

  lemma RoundTrip(s: seq<byte>)
    ensures Decode(Encode(s)) == Some(s)
  {
    EncodeShape(s);
    NoLineBreaks(Encode(s));
    DigitsRoundTrip(s);
  }
}
