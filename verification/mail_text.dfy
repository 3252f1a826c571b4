/**
 * `Text` (internal/mailcontent/text.go:21-46): repairs invalid UTF-8, removes control characters and clips at a rune boundary.
 * The steps up to the clip keep the string valid, so they are stated on its runes; the clip works on bytes.
 */
module MailText {
  import opened GoStrings
  import opened Bytes
  import opened Utf8

  // ---- Cleaning ----

  /** `strings.ToValidUTF8(s, "\uFFFD")`: one replacement for every run of invalid bytes. */
  function ToValid(s: seq<byte>, inRun: bool): string {
    if s == [] then ""
    else if RuneLength(s) == 0 then (if inRun then "" else "\U{FFFD}") + ToValid(s[1..], true)
    else [RuneAt(s)] + ToValid(s[RuneLength(s)..], false)
  }

  /**
   * `at` cuts the bytes into the pieces the runes of `out` stand for: a well-formed sequence each, or a maximal run of bytes
   * where none starts, which becomes one U+FFFD.
   */
  ghost predicate IsRepair(s: seq<byte>, at: seq<nat>, out: string) {
    && |at| == |out| + 1 && at[0] == 0 && at[|out|] == |s|
    && forall k: nat :: k < |out| ==> PieceOf(s, at, out, k)
  }

  ghost predicate PieceOf(s: seq<byte>, at: seq<nat>, out: string, k: nat)
    requires k < |out| && |at| == |out| + 1
  {
    at[k] < at[k + 1] <= |s| && IsPiece(s, at[k], at[k + 1], out[k])
  }

  ghost predicate IsPiece(s: seq<byte>, lo: nat, hi: nat, c: char)
    requires lo < hi <= |s|
  {
    if 0 < RuneLength(s[lo..]) then hi == lo + RuneLength(s[lo..]) && c == RuneAt(s[lo..])
    else
      && c == '\U{FFFD}' && (forall i :: lo <= i < hi ==> RuneLength(s[i..]) == 0)
      && (hi == |s| || 0 < RuneLength(s[hi..]))
  }

  /** Within a run of invalid bytes, the rest of the run is skipped. */
  lemma {:induction false} RunIsSkipped(s: seq<byte>) returns (n: nat)
    ensures n <= |s| && ToValid(s, true) == ToValid(s[n..], false)
    ensures (forall i :: 0 <= i < n ==> RuneLength(s[i..]) == 0) && (n == |s| || 0 < RuneLength(s[n..]))
  {
    if s == [] || 0 < RuneLength(s) {
      n := 0;
      assert s[0..] == s;
    } else {
      var rest := RunIsSkipped(s[1..]);
      n := rest + 1;
      assert s[1..][rest..] == s[n..];
      forall i | 0 <= i < n
        ensures RuneLength(s[i..]) == 0
      {
        if i > 0 {
          assert s[1..][i - 1..] == s[i..];
        } else {
          assert s[0..] == s;
        }
      }
    }
  }

  lemma PieceMoves(s: seq<byte>, d: nat, lo: nat, hi: nat, c: char)
    requires d <= |s| && lo < hi <= |s| - d && IsPiece(s[d..], lo, hi, c)
    ensures IsPiece(s, lo + d, hi + d, c)
  {
    assert s[d..][lo..] == s[lo + d..] && s[d..][hi..] == s[hi + d..];
    forall i | lo + d <= i < hi + d
      ensures s[i..] == s[d..][i - d..]
    {
    }
  }

  function Prepended(at: seq<nat>, d: nat): (r: seq<nat>)
    ensures |r| == |at| + 1 && r[0] == 0 && forall k :: 0 <= k < |at| ==> r[k + 1] == at[k] + d
  {
    [0] + seq(|at|, k requires 0 <= k < |at| => at[k] + d)
  }

  lemma LaterPiece(s: seq<byte>, d: nat, at: seq<nat>, out: string, c: char, k: nat)
    requires d <= |s| && |at| == |out| + 1 && k < |out| && PieceOf(s[d..], at, out, k)
    ensures PieceOf(s, Prepended(at, d), [c] + out, k + 1)
  {
    PieceMoves(s, d, at[k], at[k + 1], out[k]);
    assert ([c] + out)[k + 1] == out[k];
  }

  lemma RepairPrepends(s: seq<byte>, d: nat, at: seq<nat>, out: string, c: char)
    requires 0 < d <= |s| && IsPiece(s, 0, d, c) && IsRepair(s[d..], at, out)
    ensures IsRepair(s, Prepended(at, d), [c] + out)
  {
    forall k: nat | k < |[c] + out|
      ensures PieceOf(s, Prepended(at, d), [c] + out, k)
    {
      if k > 0 {
        LaterPiece(s, d, at, out, c, k - 1);
      }
    }
  }

  /** The repair puts one U+FFFD for each maximal run of invalid bytes and leaves everything else. */
  lemma {:induction false} ToValidIs(s: seq<byte>) returns (at: seq<nat>)
    ensures IsRepair(s, at, ToValid(s, false))
    decreases |s|
  {
    if s == [] {
      at := [0];
    } else {
      assert s[0..] == s;
      var d, c := RuneLength(s), '\U{FFFD}';
      if d == 0 {
        var n := RunIsSkipped(s[1..]);
        d := n + 1;
        assert s[1..][n..] == s[d..];
        forall i | 0 <= i < d
          ensures RuneLength(s[i..]) == 0
        {
          if i > 0 {
            assert s[1..][i - 1..] == s[i..];
          }
        }
      } else {
        c := RuneAt(s);
      }
      var rest := ToValidIs(s[d..]);
      RepairPrepends(s, d, rest, ToValid(s[d..], false), c);
      at := Prepended(rest, d);
    }
  }

  /** What the mapping makes of a rune; None drops it. */
  function Mapped(c: char, multiline: bool): Option<char> {
    if !IsControl(c) || (multiline && (c == '\n' || c == '\t')) then Some(c)
    else if c == '\r' || c == '\n' || c == '\t' then Some(' ')
    else None
  }

  function MapAll(s: string, multiline: bool): string {
    if s == "" then ""
    else
      var last := Mapped(s[|s| - 1], multiline);
      MapAll(s[..|s| - 1], multiline) + (if last.Some? then [last.value] else [])
  }

  /**
   * By code points: outside U+0000 to U+001F and U+007F to U+009F a rune stays. Tab and line feed stay in multi-line text and
   * become a space in other text, a carriage return becomes a space in both, and every other control character is dropped.
   */
  lemma MappedIs(c: char, multiline: bool)
    ensures var v, r := c as int, Mapped(c, multiline);
            && (0x20 <= v <= 0x7E || 0xA0 <= v ==> r == Some(c))
            && (v == 9 || v == 10 ==> r == Some(if multiline then c else ' '))
            && (v == 13 ==> r == Some(' '))
            && (v <= 8 || v == 11 || v == 12 || 14 <= v <= 0x1F || 0x7F <= v <= 0x9F ==> r == None)
  {
  }

  /** `idx` are the runes that are kept, in order, and `r` what they become. */
  ghost predicate Keeps(s: string, multiline: bool, idx: seq<nat>, r: string) {
    && |idx| == |r|
    && (forall k :: 0 <= k < |idx| ==> idx[k] < |s| && Mapped(s[idx[k]], multiline) == Some(r[k]))
    && (forall k, l :: 0 <= k < l < |idx| ==> idx[k] < idx[l])
    && (forall i: nat :: i < |s| && Mapped(s[i], multiline).Some? ==> i in idx)
  }

  lemma KeepsOneMore(s: string, last: char, multiline: bool, idx: seq<nat>, r: string)
    requires Keeps(s, multiline, idx, r)
    ensures match Mapped(last, multiline)
            case Some(c) => Keeps(s + [last], multiline, idx + [|s|], r + [c])
            case None => Keeps(s + [last], multiline, idx, r)
  {
    var longer := s + [last];
    forall i: nat | i < |longer| && Mapped(longer[i], multiline).Some?
      ensures i in if Mapped(last, multiline).Some? then idx + [|s|] else idx
    {
      if i < |s| {
        assert i in idx;
      } else {
        assert (idx + [|s|])[|idx|] == i;
      }
    }
  }

  lemma {:induction false} MapAllIs(s: string, multiline: bool) returns (idx: seq<nat>)
    ensures Keeps(s, multiline, idx, MapAll(s, multiline))
  {
    if s == "" {
      idx := [];
    } else {
      var init, last := s[..|s| - 1], s[|s| - 1];
      idx := MapAllIs(init, multiline);
      KeepsOneMore(init, last, multiline, idx, MapAll(init, multiline));
      assert s == init + [last] && MapAll(init, multiline) + [] == MapAll(init, multiline);
      idx := if Mapped(last, multiline).Some? then idx + [|init|] else idx;
    }
  }

  predicate Drops(s: string, multiline: bool) {
    exists k :: 0 <= k < |s| && Mapped(s[k], multiline) == None
  }

  function Repaired(s: seq<byte>): string {
    ReplaceCrLf(ToValid(s, false))
  }

  function Cleaned(s: seq<byte>, multiline: bool): string {
    MapAll(Repaired(s), multiline)
  }

  // ---- Line breaks ----

  lemma {:induction false} MapAllAppend(a: string, b: string, multiline: bool)
    ensures MapAll(a + b, multiline) == MapAll(a, multiline) + MapAll(b, multiline)
  {
    if b == "" {
      assert a + b == a;
    } else {
      MapAllAppend(a, b[..|b| - 1], multiline);
      assert (a + b)[..|a + b| - 1] == a + b[..|b| - 1];
    }
  }

  function MapParts(parts: seq<string>, multiline: bool): (r: seq<string>)
    ensures |r| == |parts| && forall k :: 0 <= k < |parts| ==> r[k] == MapAll(parts[k], multiline)
  {
    seq(|parts|, k requires 0 <= k < |parts| => MapAll(parts[k], multiline))
  }

  lemma MapLineFeed(multiline: bool)
    ensures MapAll("\n", multiline) == if multiline then "\n" else " "
  {
    assert MapAll("\n"[..0], multiline) == "";
  }

  lemma {:induction false} MapJoined(parts: seq<string>, multiline: bool)
    ensures MapAll(GoStrings.Join(parts, "\n"), multiline)
         == GoStrings.Join(MapParts(parts, multiline), if multiline then "\n" else " ")
  {
    if 2 <= |parts| {
      var rest := parts[1..];
      MapJoined(rest, multiline);
      assert MapParts(parts, multiline)[1..] == MapParts(rest, multiline);
      MapLineFeed(multiline);
      MapAllAppend(parts[0] + "\n", GoStrings.Join(rest, "\n"), multiline);
      MapAllAppend(parts[0], "\n", multiline);
    }
  }

  /**
   * Cleaning takes the repaired text apart at every carriage return and line feed, maps the parts, and puts them together with
   * a line feed in multi-line text and a space in other text.
   */
  lemma CleanedIs(s: seq<byte>, multiline: bool) returns (parts: seq<string>)
    ensures ToValid(s, false) == GoStrings.Join(parts, "\r\n") && forall k :: 0 <= k < |parts| ==> !HasCrLf(parts[k])
    ensures Cleaned(s, multiline) == GoStrings.Join(MapParts(parts, multiline), if multiline then "\n" else " ")
  {
    parts := ReplaceCrLfIs(ToValid(s, false));
    MapJoined(parts, multiline);
  }

  // ---- Clipping ----

  /** `r` is the longest prefix of `full` that is valid UTF-8 and fits in `max` bytes. */
  ghost predicate IsLongestFit(full: seq<byte>, max: nat, r: seq<byte>) {
    && r <= full && Valid(r) && |r| <= max
    && forall n :: |r| < n <= max && n <= |full| ==> !Valid(full[..n])
  }

  /** Everything `Text` promises about its result. */
  ghost predicate IsText(s: seq<byte>, max: nat, multiline: bool, r: seq<byte>, changed: bool) {
    var full := Encode(Cleaned(s, multiline));
    && IsLongestFit(full, max, r)
    && (changed <==> !Valid(s) || Drops(Repaired(s), multiline) || max < |full|)
  }

  method MapControls(s: string, multiline: bool) returns (r: string, dropped: bool)
    ensures r == MapAll(s, multiline)
    ensures dropped <==> Drops(s, multiline)
  {
    r, dropped := "", false;
    for k := 0 to |s|
      invariant r == MapAll(s[..k], multiline)
      invariant dropped <==> Drops(s[..k], multiline)
    {
      assert s[..k + 1][..k] == s[..k];
      assert forall m :: 0 <= m < k ==> s[..k + 1][m] == s[..k][m];
      if IsControl(s[k]) {
        if multiline && (s[k] == '\n' || s[k] == '\t') {
          r := r + [s[k]];
        } else if s[k] == '\r' || s[k] == '\n' || s[k] == '\t' {
          r := r + [' '];
        } else {
          dropped := true;
          assert Mapped(s[..k + 1][k], multiline) == None;
        }
      } else {
        r := r + [s[k]];
      }
    }
    assert s[..|s|] == s;
  }

  /** The clip loop; `full` is valid, and three rounds are always enough. */
  method Clip(full: seq<byte>, max: nat, ghost runes: string) returns (r: seq<byte>, ghost rounds: nat)
    requires full == Encode(runes) && max < |full|
    ensures IsLongestFit(full, max, r)
    ensures rounds <= 3 && |r| == max - rounds
  {
    r := full[..max];
    rounds := 0;
    ghost var back := BoundaryNearby(runes, max);
    while !Valid(r)
      invariant rounds <= back && |r| == max - rounds && r == full[..max - rounds]
      invariant forall n :: |r| < n <= max ==> !Valid(full[..n])
      decreases |r|
    {
      assert r != full[..max - back];
      r := r[..|r| - 1];
      rounds := rounds + 1;
    }
  }

  /** `max` is a length: a negative one makes the source slice out of range. */
  method Text(s: seq<byte>, max: nat, multiline: bool) returns (r: seq<byte>, changed: bool)
    ensures IsText(s, max, multiline, r, changed)
  {
    changed := !Valid(s);
    var runes := ToValid(s, false);
    runes := ReplaceCrLf(runes);
    var dropped;
    runes, dropped := MapControls(runes, multiline);
    changed := changed || dropped;
    r := Encode(runes);
    EncodeIsValid(runes);
    if |r| > max {
      ghost var rounds;
      r, rounds := Clip(r, max, runes);
      changed := true;
    }
  }

  // ---- Applying it twice ----

  predicate Clean(s: string, multiline: bool) {
    forall k :: 0 <= k < |s| ==> Mapped(s[k], multiline) == Some(s[k])
  }

  lemma {:induction false} MapAllIsClean(s: string, multiline: bool)
    ensures Clean(MapAll(s, multiline), multiline)
  {
    if s != "" {
      MapAllIsClean(s[..|s| - 1], multiline);
    }
  }

  lemma CleanIsFixed(s: string, multiline: bool)
    requires Clean(s, multiline)
    ensures ReplaceCrLf(s) == s && MapAll(s, multiline) == s && !Drops(s, multiline)
  {
    forall k | 0 <= k < |s|
      ensures s[k] != '\r'
    {
      assert Mapped(s[k], multiline) == Some(s[k]);
    }
    NothingToReplace(s);
    CleanMapsToItself(s, multiline);
  }

  lemma {:induction false} NothingToReplace(s: string)
    requires forall k :: 0 <= k < |s| ==> s[k] != '\r'
    ensures ReplaceCrLf(s) == s
  {
    if 2 <= |s| {
      NothingToReplace(s[1..]);
      assert s == [s[0]] + s[1..];
    }
  }

  lemma {:induction false} CleanMapsToItself(s: string, multiline: bool)
    requires Clean(s, multiline)
    ensures MapAll(s, multiline) == s
  {
    if s != "" {
      CleanMapsToItself(s[..|s| - 1], multiline);
      assert Mapped(s[|s| - 1], multiline) == Some(s[|s| - 1]);
      assert s == s[..|s| - 1] + [s[|s| - 1]];
    }
  }

  lemma {:induction false} ToValidOfEncoded(s: string)
    ensures ToValid(Encode(s), false) == s
  {
    if s != "" {
      RuneRoundTrip(s[0], Encode(s[1..]));
      ToValidOfEncoded(s[1..]);
      assert s == [s[0]] + s[1..];
    }
  }

  /** A result is its own cleaned form, so `Text` with the same arguments returns it again and reports no change. */
  lemma TextIsIdempotent(s: seq<byte>, max: nat, multiline: bool, r: seq<byte>, changed: bool, r': seq<byte>, changed': bool)
    requires IsText(s, max, multiline, r, changed) && IsText(r, max, multiline, r', changed')
    ensures r' == r && !changed'
  {
    var runes := Cleaned(s, multiline);
    assert Encode(runes)[..|r|] == r;
    var k := ValidPrefix(runes, |r|);
    var kept := runes[..k];
    assert r == Encode(kept);
    MapAllIsClean(Repaired(s), multiline);
    assert Clean(kept, multiline);
    CleanIsFixed(kept, multiline);
    ToValidOfEncoded(kept);
    assert Encode(Cleaned(r, multiline)) == r;
    assert |r'| == |r| by {
      assert r[..|r|] == r;
    }
  }

  /** What a result consists of: whole runes of the cleaned string, from its start. */
  lemma TextKeepsWholeRunes(s: seq<byte>, max: nat, multiline: bool, r: seq<byte>, changed: bool) returns (k: nat)
    requires IsText(s, max, multiline, r, changed)
    ensures k <= |Cleaned(s, multiline)| && r == Encode(Cleaned(s, multiline)[..k])
    ensures k < |Cleaned(s, multiline)| ==> max < |Encode(Cleaned(s, multiline)[..k + 1])|
  {
    var runes := Cleaned(s, multiline);
    var full := Encode(runes);
    assert full[..|r|] == r;
    k := ValidPrefix(runes, |r|);
    if k < |runes| {
      var longer := Encode(runes[..k + 1]);
      EncodeAppend(runes[..k + 1], runes[k + 1..]);
      assert runes[..k + 1] + runes[k + 1..] == runes;
      EncodeAppend(runes[..k], [runes[k]]);
      assert runes[..k] + [runes[k]] == runes[..k + 1];
      EncodeIsValid(runes[..k + 1]);
      assert full[..|longer|] == longer;
      assert |r| < |longer|;
    }
  }
}
