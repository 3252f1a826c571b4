/** Byte strings, decimal numbers and the reading primitives shared by the codecs. */
module Bytes {
  import opened GoStrings

  type byte = x: int | 0 <= x < 256

  /** The bytes of an ASCII literal. */
  function Ascii(s: string): (r: seq<byte>)
    ensures |r| == |s| && forall i :: 0 <= i < |s| && s[i] < '\U{80}' ==> r[i] == s[i] as int
  {
    seq(|s|, i requires 0 <= i < |s| => s[i] as int % 256)
  }

  /** Reads the literal `lit` and returns what follows it. */
  function Expect(lit: seq<byte>, s: seq<byte>): (r: Option<seq<byte>>) {
    if lit <= s then Some(s[|lit|..]) else None
  }

  lemma ExpectOwn(lit: seq<byte>, rest: seq<byte>)
    ensures Expect(lit, lit + rest) == Some(rest)
  {
  }

  lemma Associate(a: seq<byte>, b: seq<byte>, c: seq<byte>)
    ensures a + (b + c) == a + b + c
  {
  }

  predicate IsDigit(b: byte) {
    48 <= b <= 57
  }

  predicate AllDigits(s: seq<byte>) {
    forall k :: 0 <= k < |s| ==> IsDigit(s[k])
  }

  /** `%d` of a natural number. */
  function Decimal(n: nat): (r: seq<byte>)
    ensures r != [] && AllDigits(r)
  {
    if n < 10 then [48 + n] else Decimal(n / 10) + [48 + n % 10]
  }

  function Value(s: seq<byte>): nat
    requires AllDigits(s)
  {
    if s == [] then 0 else 10 * Value(s[..|s| - 1]) + (s[|s| - 1] - 48)
  }

  lemma {:induction false} ValueOfDecimal(n: nat)
    ensures Value(Decimal(n)) == n
  {
    if 10 <= n {
      ValueOfDecimal(n / 10);
      assert Decimal(n)[..|Decimal(n)| - 1] == Decimal(n / 10);
    }
  }

  /** The longest run of digits `s` starts with. */
  function DigitRun(s: seq<byte>): (n: nat)
    ensures n <= |s| && AllDigits(s[..n])
    ensures n < |s| ==> !IsDigit(s[n])
  {
    if s == [] || !IsDigit(s[0]) then 0
    else
      var n := DigitRun(s[1..]);
      assert s[..n + 1] == [s[0]] + s[1..][..n];
      n + 1
  }

  lemma {:induction false} DigitRunOwn(d: seq<byte>, rest: seq<byte>)
    requires AllDigits(d) && (rest != [] ==> !IsDigit(rest[0]))
    ensures DigitRun(d + rest) == |d|
  {
    if d == [] {
      assert d + rest == rest;
    } else {
      DigitRunOwn(d[1..], rest);
      assert (d + rest)[1..] == d[1..] + rest;
    }
  }

  /** Reads a decimal number, as many digits as there are. */
  function ReadDecimal(s: seq<byte>): (r: Option<(nat, seq<byte>)>) {
    var n := DigitRun(s);
    if n == 0 then None else Some((Value(s[..n]), s[n..]))
  }

  lemma ReadOwnDecimal(n: nat, rest: seq<byte>)
    requires rest != [] ==> !IsDigit(rest[0])
    ensures ReadDecimal(Decimal(n) + rest) == Some((n, rest))
  {
    var d := Decimal(n);
    DigitRunOwn(d, rest);
    ValueOfDecimal(n);
    assert (d + rest)[..|d|] == d;
  }

  /** Digits come highest first, with zeros in front. */
  lemma ConcreteDecimal()
    ensures Decimal(120) == Ascii("120") && Value(Ascii("120")) == 120
  {
    assert Decimal(12) == [49, 50];
    assert Decimal(120) == [49, 50, 48];
    ValueOfDecimal(120);
  }

  lemma ConcretePadding()
    ensures Padded(7, 3) == Ascii("007")
  {
    assert Decimal(7) == [55];
    assert Zeros(1) == [48];
    assert Zeros(2) == [48, 48];
  }

  function Pow10(k: nat): (p: nat)
    ensures 0 < p
  {
    if k == 0 then 1 else 10 * Pow10(k - 1)
  }

  /** `n` has at most `k` digits exactly when it is below 10^k. */
  lemma {:induction false} DecimalWidth(n: nat, k: nat)
    requires 0 < k
    ensures |Decimal(n)| <= k <==> n < Pow10(k)
  {
    if k == 1 {
      assert Pow10(1) == 10 * Pow10(0);
      if 10 <= n {
        assert |Decimal(n)| == |Decimal(n / 10)| + 1;
      }
    } else {
      if n < 10 {
        assert Pow10(k) == 10 * Pow10(k - 1);
      } else {
        DecimalWidth(n / 10, k - 1);
        assert n / 10 < Pow10(k - 1) <==> n < 10 * Pow10(k - 1);
      }
    }
  }

  function Zeros(k: nat): (r: seq<byte>)
    ensures |r| == k && AllDigits(r)
  {
    if k == 0 then [] else Zeros(k - 1) + [48]
  }

  /** `%010d`, or `%0{w}d` in general: zeros in front up to width `w`, and never any truncation. */
  function Padded(n: nat, w: nat): (r: seq<byte>)
    ensures AllDigits(r)
  {
    var d := Decimal(n);
    if |d| < w then Zeros(w - |d|) + d else d
  }

  lemma {:induction false} ValueOfPadding(k: nat, d: seq<byte>)
    requires AllDigits(d)
    ensures Value(Zeros(k) + d) == Value(d)
    decreases |d| + k
  {
    if d == [] {
      assert Zeros(k) + d == Zeros(k);
      if k > 0 {
        ValueOfPadding(k - 1, []);
        assert Zeros(k)[..k - 1] == Zeros(k - 1) == Zeros(k - 1) + [];
      }
    } else {
      ValueOfPadding(k, d[..|d| - 1]);
      assert (Zeros(k) + d)[..k + |d| - 1] == Zeros(k) + d[..|d| - 1];
    }
  }

  lemma PaddedIsFixedWidth(n: nat, w: nat)
    requires 0 < w
    ensures |Padded(n, w)| == w <==> n < Pow10(w)
    ensures w <= |Padded(n, w)|
    ensures Value(Padded(n, w)) == n
  {
    DecimalWidth(n, w);
    ValueOfDecimal(n);
    if |Decimal(n)| < w {
      ValueOfPadding(w - |Decimal(n)|, Decimal(n));
    }
  }

  /** The value of a hexadecimal digit in either letter case. */
  function HexValue(b: byte): (r: Option<nat>)
    ensures r.Some? ==> r.value < 16
  {
    if 48 <= b <= 57 then Some(b - 48)
    else if 65 <= b <= 70 then Some(b - 55)
    else if 97 <= b <= 102 then Some(b - 87)
    else None
  }

  /** Both alphabets, and nothing else is a digit. */
  lemma HexValueIs(b: byte, v: nat)
    ensures HexValue(b) == Some(v) <==> v < 16 && (b == "0123456789ABCDEF"[v] as int || b == "0123456789abcdef"[v] as int)
  {
  }

  /** The four hexadecimal digits of a 16-bit number. */
  lemma Nibbles(u: int)
    requires 0 <= u < 0x1_0000
    ensures u / 0x1000 * 0x1000 + u / 0x100 % 16 * 0x100 + u / 16 % 16 * 16 + u % 16 == u
    ensures 0 <= u / 0x1000 < 16
  {
  }
}
