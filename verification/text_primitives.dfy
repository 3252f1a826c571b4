/** The pieces of Go's `strings` package the rest of the project relies on, over sequences of runes. */
module GoStrings {

  datatype Option<+T> = None | Some(value: T)

  datatype Result<+T, +E> = Ok(value: T) | Err(error: E)

  /** Unicode White_Space, the set `unicode.IsSpace` accepts. */
  predicate IsSpace(c: char) {
    || '\t' <= c <= '\r' || c == ' ' || c == '\U{85}' || c == '\U{A0}' || c == '\U{1680}'
    || '\U{2000}' <= c <= '\U{200A}' || '\U{2028}' <= c <= '\U{2029}'
    || c == '\U{202F}' || c == '\U{205F}' || c == '\U{3000}'
  }

  /** The code points with the property White_Space. */
  const WHITE_SPACE: set<int> := {
    0x9, 0xA, 0xB, 0xC, 0xD, 0x20, 0x85, 0xA0, 0x1680, 0x2000, 0x2001, 0x2002, 0x2003, 0x2004, 0x2005, 0x2006, 0x2007, 0x2008,
    0x2009, 0x200A, 0x2028, 0x2029, 0x202F, 0x205F, 0x3000}

  lemma IsSpaceIs(c: char)
    ensures IsSpace(c) <==> c as int in WHITE_SPACE
  {
  }

  /** `unicode.IsControl`. */
  predicate IsControl(c: char)
    ensures IsControl(c) <==> c <= '\U{1F}' || c == '\U{7F}' || '\U{80}' <= c <= '\U{9F}'
  {
    c as int < 0x20 || 0x7F <= c as int < 0xA0
  }

  function TrimLeft(s: string): (r: string) {
    if s != "" && IsSpace(s[0]) then TrimLeft(s[1..]) else s
  }

  function TrimRight(s: string): (r: string) {
    if s != "" && IsSpace(s[|s| - 1]) then TrimRight(s[..|s| - 1]) else s
  }

  /** `strings.TrimSpace`. */
  function TrimSpace(s: string): (r: string) {
    TrimRight(TrimLeft(s))
  }

  predicate Trimmed(s: string) {
    s == "" || (!IsSpace(s[0]) && !IsSpace(s[|s| - 1]))
  }

  lemma {:induction false} TrimLeftIsSuffix(s: string)
    ensures |TrimLeft(s)| <= |s| && TrimLeft(s) == s[|s| - |TrimLeft(s)|..]
    ensures TrimLeft(s) != "" ==> !IsSpace(TrimLeft(s)[0])
    ensures forall k :: 0 <= k < |s| - |TrimLeft(s)| ==> IsSpace(s[k])
  {
    if s != "" && IsSpace(s[0]) {
      TrimLeftIsSuffix(s[1..]);
      assert forall k :: 0 < k < |s| - |TrimLeft(s)| ==> s[k] == s[1..][k - 1];
    }
  }

  lemma {:induction false} TrimRightIsPrefix(s: string)
    ensures TrimRight(s) <= s
    ensures TrimRight(s) != "" ==> !IsSpace(TrimRight(s)[|TrimRight(s)| - 1])
    ensures forall k :: |TrimRight(s)| <= k < |s| ==> IsSpace(s[k])
  {
    if s != "" && IsSpace(s[|s| - 1]) {
      TrimRightIsPrefix(s[..|s| - 1]);
    }
  }

  lemma TrimSpaceTrims(s: string)
    ensures Trimmed(TrimSpace(s))
  {
    TrimLeftIsSuffix(s);
    TrimRightIsPrefix(TrimLeft(s));
  }

  predicate Blank(s: string) {
    forall k :: 0 <= k < |s| ==> IsSpace(s[k])
  }

  /** `t` is `s` without the white space around it. */
  ghost predicate IsTrimOf(t: string, s: string) {
    Trimmed(t) && exists before, after :: Blank(before) && Blank(after) && s == before + t + after
  }

  lemma WithinBlanks(before: string, t: string, after: string, s: string)
    requires Trimmed(t) && Blank(before) && Blank(after) && s == before + t + after
    ensures IsTrimOf(t, s)
  {
  }

  lemma SplitTwice(s: string, left: string, t: string)
    requires |t| <= |left| <= |s| && left == s[|s| - |left|..] && t == left[..|t|]
    ensures s == s[..|s| - |left|] + t + left[|t|..]
  {
    assert left == t + left[|t|..];
    assert s == s[..|s| - |left|] + left;
  }

  /** That is what trimming computes, */
  lemma TrimSpaceIs(s: string)
    ensures IsTrimOf(TrimSpace(s), s)
  {
    var left, t := TrimLeft(s), TrimSpace(s);
    TrimLeftIsSuffix(s);
    TrimRightIsPrefix(left);
    TrimSpaceTrims(s);
    SplitTwice(s, left, t);
    WithinBlanks(s[..|s| - |left|], t, left[|t|..], s);
  }

  /** and nothing else is. */
  lemma TrimIsUnique(t: string, u: string, s: string)
    requires IsTrimOf(t, s) && IsTrimOf(u, s)
    ensures t == u
  {
    var b, a :| Blank(b) && Blank(a) && s == b + t + a;
    var c, d :| Blank(c) && Blank(d) && s == c + u + d;
    if t != "" {
      Within(b, t, a, c, u, d);
    } else if u != "" {
      Within(c, u, d, b, t, a);
    }
  }

  /** The runes of a trimmed string lie in every other one, and the other way round. */
  lemma Within(b: string, t: string, a: string, c: string, u: string, d: string)
    requires Trimmed(t) && t != "" && Trimmed(u) && Blank(a) && Blank(b) && Blank(c) && Blank(d)
    requires b + t + a == c + u + d
    ensures t == u
  {
    var s, first, last := b + t + a, |b|, |b| + |t| - 1;
    assert s[first] == t[0] && s[last] == t[|t| - 1];
    assert forall k :: 0 <= k < |c| ==> s[k] == c[k];
    assert forall k :: |c| + |u| <= k < |s| ==> s[k] == d[k - |c| - |u|];
    assert |c| <= first && last < |c| + |u|;
    assert s[|c|] == u[0] && s[|c| + |u| - 1] == u[|u| - 1];
    assert forall k :: 0 <= k < |b| ==> s[k] == b[k];
    assert forall k :: |b| + |t| <= k < |s| ==> s[k] == a[k - |b| - |t|];
    assert |b| <= |c| && |c| + |u| <= |b| + |t|;
    assert s[|b|..|b| + |t|] == t && s[|c|..|c| + |u|] == u;
  }

  /** Nothing is left exactly of white space. */
  lemma TrimIsEmpty(s: string)
    ensures TrimSpace(s) == "" <==> Blank(s)
  {
    TrimSpaceIs(s);
    if TrimSpace(s) == "" {
      var before, after :| Blank(before) && Blank(after) && s == before + "" + after;
    } else if Blank(s) {
      assert Blank("") && s == s + "" + "";
      TrimIsUnique("", TrimSpace(s), s);
    }
  }

  lemma TrimmedIsFixed(s: string)
    requires Trimmed(s)
    ensures TrimSpace(s) == s
  {
  }

  lemma TrimIsIdempotent(s: string)
    ensures TrimSpace(TrimSpace(s)) == TrimSpace(s)
  {
    TrimSpaceTrims(s);
    TrimmedIsFixed(TrimSpace(s));
  }

  /** `strings.ReplaceAll(s, "\r\n", "\n")`. */
  function ReplaceCrLf(s: string): (r: string) {
    if |s| < 2 then s
    else if s[0] == '\r' && s[1] == '\n' then "\n" + ReplaceCrLf(s[2..])
    else [s[0]] + ReplaceCrLf(s[1..])
  }

  /** The parts with a separator between them. */
  function Join(parts: seq<string>, separator: string): string {
    if parts == [] then "" else if |parts| == 1 then parts[0] else parts[0] + separator + Join(parts[1..], separator)
  }

  predicate HasCrLf(s: string) {
    exists k :: 0 <= k < |s| - 1 && s[k] == '\r' && s[k + 1] == '\n'
  }

  lemma {:induction false} JoinPrepend(c: char, parts: seq<string>, separator: string)
    requires parts != []
    ensures Join([[c] + parts[0]] + parts[1..], separator) == [c] + Join(parts, separator)
  {
    var longer := [[c] + parts[0]] + parts[1..];
    if |parts| > 1 {
      assert longer[1..] == parts[1..];
      assert [c] + parts[0] + separator + Join(parts[1..], separator) == [c] + (parts[0] + separator + Join(parts[1..], separator));
    }
  }

  lemma JoinNew(parts: seq<string>, separator: string)
    requires parts != []
    ensures Join([""] + parts, separator) == separator + Join(parts, separator)
  {
    assert ([""] + parts)[1..] == parts;
    assert "" + separator == separator;
  }

  /** It puts a line feed for every carriage return and line feed, and changes nothing else. */
  lemma {:induction false} ReplaceCrLfIs(s: string) returns (parts: seq<string>)
    ensures parts != [] && s == Join(parts, "\r\n") && ReplaceCrLf(s) == Join(parts, "\n")
    ensures forall k :: 0 <= k < |parts| ==> !HasCrLf(parts[k])
    ensures s != "" && parts[0] != "" ==> parts[0][0] == s[0]
    ensures s != "" && parts[0] == "" ==> s[0] == '\r'
  {
    if |s| < 2 {
      parts := [s];
    } else if s[0] == '\r' && s[1] == '\n' {
      var rest := ReplaceCrLfIs(s[2..]);
      parts := [""] + rest;
      JoinNew(rest, "\r\n");
      JoinNew(rest, "\n");
      assert s == "\r\n" + s[2..];
    } else {
      var rest := ReplaceCrLfIs(s[1..]);
      parts := [[s[0]] + rest[0]] + rest[1..];
      JoinPrepend(s[0], rest, "\r\n");
      JoinPrepend(s[0], rest, "\n");
      assert s == [s[0]] + s[1..];
      NoCrLfPrepend(s[0], rest[0], s);
      forall k | 0 <= k < |parts|
        ensures !HasCrLf(parts[k])
      {
        if k > 0 {
          assert parts[k] == rest[k];
        }
      }
    }
  }

  lemma NoCrLfPrepend(c: char, part: string, s: string)
    requires 2 <= |s| && s[0] == c && !(s[0] == '\r' && s[1] == '\n') && !HasCrLf(part)
    requires part != "" ==> part[0] == s[1]
    ensures !HasCrLf([c] + part)
  {
    var longer := [c] + part;
    forall k | 0 <= k < |longer| - 1
      ensures !(longer[k] == '\r' && longer[k + 1] == '\n')
    {
      if k > 0 {
        assert longer[k] == part[k - 1] && longer[k + 1] == part[k];
      }
    }
  }

  function MapRunes(f: char -> char, s: string): (r: string)
    ensures |r| == |s| && forall i :: 0 <= i < |s| ==> r[i] == f(s[i])
  {
    seq(|s|, i requires 0 <= i < |s| => f(s[i]))
  }

  /**
   * A rune-wise case mapping (`unicode.ToLower` or `unicode.ToUpper`). Only the two laws below are used: it is
   * idempotent, and it neither creates nor removes white space.
   */
  ghost predicate CaseMapping(f: char -> char) {
    && (forall c {:trigger f(c)} :: f(f(c)) == f(c))
    && (forall c {:trigger f(c)} :: IsSpace(f(c)) == IsSpace(c))
  }

  lemma CaseMappingIsIdempotent(f: char -> char, s: string)
    requires CaseMapping(f)
    ensures MapRunes(f, MapRunes(f, s)) == MapRunes(f, s)
  {
  }

  lemma CaseMappingKeepsTrimmed(f: char -> char, s: string)
    requires CaseMapping(f) && Trimmed(s)
    ensures TrimSpace(MapRunes(f, s)) == MapRunes(f, s)
  {
    TrimmedIsFixed(MapRunes(f, s));
  }
}
