/** UTF-8 as Go's `unicode/utf8` reads it (RFC 3629 sections 3 and 4). */
module Utf8 {
  import opened Bytes

  /** `utf8.AppendRune`. */
  function RuneBytes(c: char): (r: seq<byte>)
    ensures 1 <= |r| <= 4
  {
    var v: int := c as int;
    if v < 0x80 then [v]
    else if v < 0x800 then [0xC0 + v / 0x40, 0x80 + v % 0x40]
    else if v < 0x1_0000 then
      assert v / 0x1000 < 16;
      [0xE0 + v / 0x1000, 0x80 + v / 0x40 % 0x40, 0x80 + v % 0x40]
    else
      assert v / 0x4_0000 < 8;
      [0xF0 + v / 0x4_0000, 0x80 + v / 0x1000 % 0x40, 0x80 + v / 0x40 % 0x40, 0x80 + v % 0x40]
  }

  /** One rune of each length. */
  lemma ConcreteRunes()
    ensures RuneBytes('A') == [0x41] && RuneBytes('\U{E9}') == [0xC3, 0xA9]
    ensures RuneBytes('\U{20AC}') == [0xE2, 0x82, 0xAC] && RuneBytes('\U{1F600}') == [0xF0, 0x9F, 0x98, 0x80]
  {
  }

  function Encode(s: string): (r: seq<byte>) {
    if s == "" then [] else RuneBytes(s[0]) + Encode(s[1..])
  }

  predicate Continues(b: byte) {
    0x80 <= b <= 0xBF
  }

  /** The second byte a lead byte allows: shorter encodings, surrogates and values past U+10FFFF are excluded here. */
  predicate Follows(lead: byte, second: byte) {
    if lead == 0xE0 then 0xA0 <= second <= 0xBF
    else if lead == 0xED then 0x80 <= second <= 0x9F
    else if lead == 0xF0 then 0x90 <= second <= 0xBF
    else if lead == 0xF4 then 0x80 <= second <= 0x8F
    else Continues(second)
  }

  /** The length of the well-formed sequence `b` starts with, or 0. */
  function RuneLength(b: seq<byte>): (n: nat)
    ensures n <= 4 && n <= |b|
  {
    if b == [] then 0
    else if b[0] < 0x80 then 1
    else if 0xC2 <= b[0] <= 0xDF then if 2 <= |b| && Continues(b[1]) then 2 else 0
    else if 0xE0 <= b[0] <= 0xEF then if 3 <= |b| && Follows(b[0], b[1]) && Continues(b[2]) then 3 else 0
    else if 0xF0 <= b[0] <= 0xF4 then
      if 4 <= |b| && Follows(b[0], b[1]) && Continues(b[2]) && Continues(b[3]) then 4 else 0
    else 0
  }

  /** The value of a lead digit and the continuation digits after it. */
  function Join(lead: int, b1: int, b2: int, b3: int): int {
    lead * 0x4_0000 + b1 * 0x1000 + b2 * 0x40 + b3
  }

  function RuneValue(b: seq<byte>): (v: int)
    requires 0 < RuneLength(b)
    ensures 0 <= v < 0xD800 || 0xE000 <= v < 0x11_0000
  {
    var n := RuneLength(b);
    var b0: int := b[0];
    if n == 1 then b0
    else
      var b1: int := b[1];
      if n == 2 then Join(0, 0, b0 - 0xC0, b1 - 0x80)
      else
        var b2: int := b[2];
        if n == 3 then Join(0, b0 - 0xE0, b1 - 0x80, b2 - 0x80)
        else
          var b3: int := b[3];
          Join(b0 - 0xF0, b1 - 0x80, b2 - 0x80, b3 - 0x80)
  }

  function RuneAt(b: seq<byte>): char
    requires 0 < RuneLength(b)
  {
    RuneValue(b) as char
  }

  /** `utf8.Valid`. */
  predicate Valid(b: seq<byte>) {
    b == [] || (0 < RuneLength(b) && Valid(b[RuneLength(b)..]))
  }

  function Decode(b: seq<byte>): string
    requires Valid(b)
  {
    if b == [] then "" else [RuneAt(b)] + Decode(b[RuneLength(b)..])
  }

  // ---- One rune ----

  lemma Digits(v: int)
    requires 0 <= v < 0x20_0000
    ensures v == Join(v / 0x4_0000, v / 0x1000 % 0x40, v / 0x40 % 0x40, v % 0x40)
    ensures v < 0x1_0000 ==> v == Join(0, v / 0x1000, v / 0x40 % 0x40, v % 0x40)
    ensures v < 0x800 ==> v == Join(0, 0, v / 0x40, v % 0x40)
  {
    assert v / 0x1000 == v / 0x40 / 0x40 && v / 0x4_0000 == v / 0x1000 / 0x40;
  }

  lemma DigitsOf(lead: int, b1: int, b2: int, b3: int)
    requires 0 <= lead && 0 <= b1 < 0x40 && 0 <= b2 < 0x40 && 0 <= b3 < 0x40
    ensures var v := Join(lead, b1, b2, b3);
            v / 0x4_0000 == lead && v / 0x1000 % 0x40 == b1 && v / 0x40 % 0x40 == b2 && v % 0x40 == b3
    ensures lead == 0 ==> Join(lead, b1, b2, b3) / 0x1000 == b1
    ensures lead == 0 && b1 == 0 ==> Join(lead, b1, b2, b3) / 0x40 == b2
  {
    var v := Join(lead, b1, b2, b3);
    assert v / 0x40 == lead * 0x1000 + b1 * 0x40 + b2;
    assert v / 0x1000 == v / 0x40 / 0x40 == lead * 0x40 + b1;
    assert v / 0x4_0000 == v / 0x1000 / 0x40 == lead;
  }

  lemma RuneRoundTrip(c: char, rest: seq<byte>)
    ensures var b := RuneBytes(c) + rest;
            && RuneLength(b) == |RuneBytes(c)| && RuneAt(b) == c && b[RuneLength(b)..] == rest
  {
    var b, v := RuneBytes(c) + rest, c as int;
    assert b[|RuneBytes(c)|..] == rest;
    Digits(v);
    if v < 0x800 {
    } else if v < 0x1_0000 {
      ThreeBytes(v, b);
    } else {
      FourBytes(v, b);
    }
  }

  lemma ThreeBytes(v: int, b: seq<byte>)
    requires 0x800 <= v < 0xD800 || 0xE000 <= v < 0x1_0000
    requires 3 <= |b| && b[0] == 0xE0 + v / 0x1000 && b[1] == 0x80 + v / 0x40 % 0x40 && b[2] == 0x80 + v % 0x40
    ensures RuneLength(b) == 3
  {
    Digits(v);
  }

  lemma FourBytes(v: int, b: seq<byte>)
    requires 0x1_0000 <= v < 0x11_0000
    requires 4 <= |b| && b[0] == 0xF0 + v / 0x4_0000 && b[1] == 0x80 + v / 0x1000 % 0x40
    requires b[2] == 0x80 + v / 0x40 % 0x40 && b[3] == 0x80 + v % 0x40
    ensures RuneLength(b) == 4
  {
    Digits(v);
  }

  lemma TwoBack(b: seq<byte>)
    requires RuneLength(b) == 2
    ensures RuneBytes(RuneAt(b)) == [b[0], b[1]]
  {
    DigitsOf(0, 0, b[0] as int - 0xC0, b[1] as int - 0x80);
  }

  lemma ThreeBack(b: seq<byte>)
    requires RuneLength(b) == 3
    ensures RuneBytes(RuneAt(b)) == [b[0], b[1], b[2]]
  {
    DigitsOf(0, b[0] as int - 0xE0, b[1] as int - 0x80, b[2] as int - 0x80);
  }

  lemma FourBack(b: seq<byte>)
    requires RuneLength(b) == 4
    ensures RuneBytes(RuneAt(b)) == [b[0], b[1], b[2], b[3]]
  {
    DigitsOf(b[0] as int - 0xF0, b[1] as int - 0x80, b[2] as int - 0x80, b[3] as int - 0x80);
  }

  lemma BytesRoundTrip(b: seq<byte>)
    requires 0 < RuneLength(b)
    ensures RuneBytes(RuneAt(b)) == b[..RuneLength(b)]
  {
    var n := RuneLength(b);
    if n == 2 {
      TwoBack(b);
    } else if n == 3 {
      ThreeBack(b);
    } else if n == 4 {
      FourBack(b);
    }
  }

  /** Well-formedness is decided by the sequence itself, and no proper part of a sequence is one. */
  lemma RuneLengthOfPrefix(b: seq<byte>, n: nat)
    requires 0 < RuneLength(b) && n <= |b|
    ensures RuneLength(b[..n]) == if RuneLength(b) <= n then RuneLength(b) else 0
  {
  }

  // ---- Strings ----

  lemma {:induction false} EncodeIsValid(s: string)
    ensures Valid(Encode(s)) && Decode(Encode(s)) == s
  {
    if s != "" {
      EncodeIsValid(s[1..]);
      RuneRoundTrip(s[0], Encode(s[1..]));
      assert s == [s[0]] + s[1..];
    }
  }

  lemma {:induction false} ValidIsEncoded(b: seq<byte>)
    requires Valid(b)
    ensures Encode(Decode(b)) == b
  {
    if b != [] {
      var n := RuneLength(b);
      ValidIsEncoded(b[n..]);
      DecodeCons(b);
      EncodeCons(RuneAt(b), Decode(b[n..]));
      BytesRoundTrip(b);
      assert b[..n] + b[n..] == b;
    }
  }

  lemma DecodeCons(b: seq<byte>)
    requires Valid(b) && b != []
    ensures Decode(b) == [RuneAt(b)] + Decode(b[RuneLength(b)..])
  {
  }

  lemma EncodeCons(c: char, s: string)
    ensures Encode([c] + s) == RuneBytes(c) + Encode(s)
  {
    assert ([c] + s)[1..] == s;
  }

  lemma {:induction false} EncodeAppend(s: string, t: string)
    ensures Encode(s + t) == Encode(s) + Encode(t)
  {
    if s == "" {
      assert s + t == t;
    } else {
      EncodeAppend(s[1..], t);
      EncodeCons(s[0], s[1..] + t);
      EncodeCons(s[0], s[1..]);
      assert s == [s[0]] + s[1..] && s + t == [s[0]] + (s[1..] + t);
      Associate(RuneBytes(s[0]), Encode(s[1..]), Encode(t));
    }
  }

  /** A prefix of an encoded string is valid exactly when it ends between two runes. */
  lemma {:induction false} ValidPrefix(s: string, n: nat) returns (k: nat)
    requires n <= |Encode(s)| && Valid(Encode(s)[..n])
    ensures k <= |s| && Encode(s)[..n] == Encode(s[..k])
  {
    if n == 0 {
      k := 0;
    } else {
      var b, m := Encode(s), |RuneBytes(s[0])|;
      RuneRoundTrip(s[0], Encode(s[1..]));
      RuneLengthOfPrefix(b, n);
      assert b[..n][m..] == Encode(s[1..])[..n - m];
      k := ValidPrefix(s[1..], n - m);
      k := k + 1;
      assert s[..k][1..] == s[1..][..k - 1];
      assert b[..n] == RuneBytes(s[0]) + Encode(s[1..])[..n - m];
    }
  }

  /** Going back at most three bytes from anywhere in an encoded string meets a rune boundary. */
  lemma {:induction false} BoundaryNearby(s: string, n: nat) returns (back: nat)
    requires n <= |Encode(s)|
    ensures back <= 3 && back <= n && Valid(Encode(s)[..n - back])
  {
    if n == 0 {
      back := 0;
    } else {
      var b, m := Encode(s), |RuneBytes(s[0])|;
      RuneRoundTrip(s[0], Encode(s[1..]));
      if n < m {
        back := n;
      } else {
        back := BoundaryNearby(s[1..], n - m);
        RuneLengthOfPrefix(b, n - back);
        assert b[..n - back][m..] == Encode(s[1..])[..n - m - back];
      }
    }
  }

  lemma {:induction false} AsciiIsValid(b: seq<byte>)
    requires forall k :: 0 <= k < |b| ==> b[k] < 0x80
    ensures Valid(b)
  {
    if b != [] {
      AsciiIsValid(b[1..]);
    }
  }
}
