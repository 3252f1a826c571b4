/**
 * The read-only verdict does not depend on what is inside a closed quoted region (internal/databasesql/policy.go:31-59), as
 * long as that stays clear of the checks that run on the raw text.
 */
module SqlQuoting {
  import opened GoStrings
  import opened SqlKeywords
  import opened SqlPolicy

  // ---- Trimming around a middle part ----

  lemma {:induction false} TrimLeftStops(a: string, rest: string)
    requires rest != "" && !IsSpace(rest[0])
    ensures TrimLeft(a + rest) == TrimLeft(a) + rest
  {
    if a == "" {
      assert a + rest == rest;
    } else {
      assert (a + rest)[0] == a[0];
      if IsSpace(a[0]) {
        TrimLeftStops(a[1..], rest);
        assert (a + rest)[1..] == a[1..] + rest;
      }
    }
  }

  lemma {:induction false} TrimRightStops(rest: string, b: string)
    requires rest != "" && !IsSpace(rest[|rest| - 1])
    ensures TrimRight(rest + b) == rest + TrimRight(b)
  {
    if b == "" {
      assert rest + b == rest && rest + TrimRight(b) == rest;
    } else {
      assert (rest + b)[|rest + b| - 1] == b[|b| - 1];
      if IsSpace(b[|b| - 1]) {
        TrimRightStops(rest, b[..|b| - 1]);
        assert (rest + b)[..|rest + b| - 1] == rest + b[..|b| - 1];
      }
    }
  }

  lemma TrimAround(a: string, mid: string, b: string)
    requires mid != "" && !IsSpace(mid[0]) && !IsSpace(mid[|mid| - 1])
    ensures TrimSpace(a + mid + b) == TrimLeft(a) + mid + TrimRight(b)
  {
    var left := TrimLeft(a);
    assert a + mid + b == a + (mid + b) && left + (mid + b) == left + mid + b;
    TrimLeftStops(a, mid + b);
    assert (left + mid)[|left + mid| - 1] == mid[|mid| - 1];
    TrimRightStops(left + mid, b);
  }

  lemma {:induction false} TrimLeftIsIdempotent(a: string)
    ensures TrimLeft(TrimLeft(a)) == TrimLeft(a)
  {
    TrimLeftIsSuffix(a);
  }

  lemma SemicolonAround(front: string, b: string)
    requires front != "" && front[|front| - 1] != ';'
    ensures WithoutSemicolon(front + b) == front + WithoutSemicolon(b)
  {
    if b == "" {
      assert front + b == front;
    } else {
      assert (front + b)[|front + b| - 1] == b[|b| - 1];
      assert (front + b)[..|front + b| - 1] == front + b[..|b| - 1];
    }
  }

  // ---- Fragments that stay clear of the middle ----

  /** No occurrence of `f` reaches into the body, or across it when it is empty. */
  ghost predicate StaysClear(left: string, body: string, right: string, f: string) {
    var s := left + body + right;
    forall k :: 0 <= k <= |s| - |f| && OccursAt(s, f, k) ==> k + |f| <= |left| || |left| + |body| <= k
  }

  /** An occurrence in a part is one in the whole, and the other way round if it lies in the part. */
  lemma OccursInPart(before: string, part: string, after: string, f: string, k: int)
    requires 0 <= k <= |part| - |f|
    ensures OccursAt(before + part + after, f, |before| + k) == OccursAt(part, f, k)
  {
    assert (before + part + after)[|before| + k..|before| + k + |f|] == part[k..k + |f|];
  }

  lemma ClearOccurrences(left: string, body: string, right: string, f: string)
    requires StaysClear(left, body, right, f)
    ensures Contains(left + body + right, f) <==> Contains(left, f) || Contains(right, f)
  {
    var s, n := left + body + right, |left| + |body|;
    assert s == "" + left + (body + right) && s == (left + body) + right + "";
    if Contains(s, f) {
      var k :| 0 <= k <= |s| - |f| && OccursAt(s, f, k);
      if k + |f| <= |left| {
        OccursInPart("", left, body + right, f, k);
      } else {
        OccursInPart(left + body, right, "", f, k - n);
      }
    }
    if Contains(left, f) {
      var k :| 0 <= k <= |left| - |f| && OccursAt(left, f, k);
      OccursInPart("", left, body + right, f, k);
    }
    if Contains(right, f) {
      var k :| 0 <= k <= |right| - |f| && OccursAt(right, f, k);
      OccursInPart(left + body, right, "", f, k);
    }
  }

  /** Staying clear is not lost when the ends are trimmed. */
  lemma ClearWhenTrimmed(left: string, body: string, right: string, f: string, left': string, right': string)
    requires StaysClear(left, body, right, f)
    requires |left'| <= |left| && left' == left[|left| - |left'|..] && right' <= right
    ensures StaysClear(left', body, right', f)
  {
    var s, s', d := left + body + right, left' + body + right', |left| - |left'|;
    forall k | 0 <= k <= |s'| - |f| && OccursAt(s', f, k)
      ensures k + |f| <= |left'| || |left'| + |body| <= k
    {
      assert s[d + k..d + k + |f|] == s'[k..k + |f|];
      assert OccursAt(s, f, d + k);
    }
  }

  // ---- The theorem ----

  /** The text of the region: the opening rune, the body, and the closing rune. */
  function Region(o: char, body: string, c: char): (r: string) {
    [o] + body + [c]
  }

  /** What a body must not contain: the closing rune, `;`, NUL, and anything that makes an unsafe fragment. */
  ghost predicate Harmless(p: Policy, a: string, o: char, body: string, c: char, b: string) {
    && c !in body && ';' !in body && '\0' !in body
    && forall f :: f in COMMENTS + p.unsafe && f != "" ==> StaysClear(a + [o], body, [c] + b, f)
  }

  /** A region that opens where no quote is open. Its delimiters survive trimming and the stripping of a final semicolon. */
  ghost predicate OpensRegion(p: Policy, a: string, o: char, c: char) {
    && o in p.pairs && p.pairs[o] == c && c != NONE && QuoteAfter(p.pairs, TrimLeft(a)) == NONE
    && !IsSpace(o) && !IsSpace(c) && c != ';'
  }

  /** The texts the checks see, with the region still in place. */
  lemma TrimmedParts(p: Policy, a: string, o: char, body: string, c: char, b: string)
    requires OpensRegion(p, a, o, c)
    ensures TrimSpace(a + Region(o, body, c) + b) == TrimLeft(a) + Region(o, body, c) + TrimRight(b)
    ensures TrimSpace(WithoutSemicolon(TrimLeft(a) + Region(o, body, c) + TrimRight(b)))
         == TrimLeft(a) + Region(o, body, c) + TrimRight(WithoutSemicolon(TrimRight(b)))
  {
    var mid := Region(o, body, c);
    TrimAround(a, mid, b);
    var front := TrimLeft(a) + mid;
    assert front[|front| - 1] == c;
    SemicolonAround(front, TrimRight(b));
    TrimAround(TrimLeft(a), mid, WithoutSemicolon(TrimRight(b)));
    TrimLeftIsIdempotent(a);
  }

  lemma FragmentsOfParts(p: Policy, a: string, o: char, body: string, c: char, b: string, f: string)
    requires Harmless(p, a, o, body, c, b) && f in COMMENTS + p.unsafe && f != ""
    ensures Contains(TrimLeft(a) + Region(o, body, c) + TrimRight(b), f)
       <==> Contains(TrimLeft(a) + [o], f) || Contains([c] + TrimRight(b), f)
  {
    TrimLeftIsSuffix(a);
    TrimRightIsPrefix(b);
    var left, right := TrimLeft(a) + [o], [c] + TrimRight(b);
    assert left == (a + [o])[|a + [o]| - |left|..];
    ClearWhenTrimmed(a + [o], body, [c] + b, f, left, right);
    ClearOccurrences(left, body, right, f);
    assert left + body + right == TrimLeft(a) + Region(o, body, c) + TrimRight(b);
  }

  lemma SameFragments(s: string, t: string, fragments: seq<string>)
    requires forall f :: f in fragments && f != "" ==> (Contains(s, f) <==> Contains(t, f))
    ensures HasFragment(s, fragments) <==> HasFragment(t, fragments)
  {
    forall i | 0 <= i < |fragments| && fragments[i] != ""
      ensures Contains(s, fragments[i]) <==> Contains(t, fragments[i])
    {
      assert fragments[i] in fragments;
    }
  }

  lemma SameUnsafe(p: Policy, a: string, o: char, body: string, body': string, c: char, b: string)
    requires Harmless(p, a, o, body, c, b) && Harmless(p, a, o, body', c, b)
    ensures Unsafe(p, TrimLeft(a) + Region(o, body, c) + TrimRight(b))
       <==> Unsafe(p, TrimLeft(a) + Region(o, body', c) + TrimRight(b))
  {
    var t, t' := TrimLeft(a) + Region(o, body, c) + TrimRight(b), TrimLeft(a) + Region(o, body', c) + TrimRight(b);
    forall f | f in COMMENTS + p.unsafe && f != ""
      ensures Contains(t, f) <==> Contains(t', f)
    {
      FragmentsOfParts(p, a, o, body, c, b, f);
      FragmentsOfParts(p, a, o, body', c, b, f);
    }
    SameFragments(t, t', COMMENTS + p.unsafe);
    SameRuneOutside('\0', TrimLeft(a), o, body, body', c, TrimRight(b));
  }

  lemma SameRuneOutside(r: char, front: string, o: char, body: string, body': string, c: char, end: string)
    requires r !in body && r !in body'
    ensures r in front + Region(o, body, c) + end <==> r in front + Region(o, body', c) + end
  {
  }

  lemma SameKeywords(abc: Alphabet, pairs: Pairs, front: string, o: char, body: string, body': string, c: char, end: string)
    requires o in pairs && pairs[o] == c && c != NONE && QuoteAfter(pairs, front) == NONE && c !in body && c !in body'
    ensures KeywordsOf(abc, pairs, front + Region(o, body, c) + end) == KeywordsOf(abc, pairs, front + Region(o, body', c) + end)
  {
    QuotedRegionIsSkipped(abc, pairs, front, o, body, c, end);
    QuotedRegionIsSkipped(abc, pairs, front, o, body', c, end);
    assert front + Region(o, body, c) + end == front + [o] + body + [c] + end;
    assert front + Region(o, body', c) + end == front + [o] + body' + [c] + end;
  }

  /** Replacing the body of a closed quoted region by another harmless one leaves the verdict unchanged. */
  lemma QuotedBodyIsIrrelevant(abc: Alphabet, p: Policy, a: string, o: char, body: string, body': string, c: char, b: string,
                               code: string)
    requires OpensRegion(p, a, o, c) && Harmless(p, a, o, body, c, b) && Harmless(p, a, o, body', c, b)
    requires IsVerdict(abc, p, a + Region(o, body, c) + b, code)
    ensures IsVerdict(abc, p, a + Region(o, body', c) + b, code)
  {
    var end := TrimRight(WithoutSemicolon(TrimRight(b)));
    TrimmedParts(p, a, o, body, c, b);
    TrimmedParts(p, a, o, body', c, b);
    SameUnsafe(p, a, o, body, body', c, b);
    SameRuneOutside(';', TrimLeft(a), o, body, body', c, end);
    SameKeywords(abc, p.pairs, TrimLeft(a), o, body, body', c, end);
  }

  /** An accepted query starts with an allowed keyword, has no denied one, and matches no rule that carries a code. */
  lemma AcceptedIsReadOnly(abc: Alphabet, p: Policy, query: string)
    requires forall i :: 0 <= i < |p.rules| ==> p.rules[i].code != ""
    ensures IsVerdict(abc, p, query, "") <==>
              var trimmed := TrimSpace(query);
              var statement := TrimSpace(WithoutSemicolon(trimmed));
              var words := KeywordsOf(abc, p.pairs, statement);
              && !Unsafe(p, trimmed) && ';' !in statement
              && words != [] && words[0] in p.allowed
              && (forall w :: w in words ==> w !in p.denied)
              && (forall i :: 0 <= i < |p.rules| ==> !HasSequence(words, p.rules[i].sequence))
  {
    var words := KeywordsOf(abc, p.pairs, TrimSpace(WithoutSemicolon(TrimSpace(query))));
    if exists i :: 0 <= i < |p.rules| && HasSequence(words, p.rules[i].sequence) {
      var i :| 0 <= i < |p.rules| && HasSequence(words, p.rules[i].sequence);
      var first := FirstOf(p.rules, words, i);
    }
  }

  lemma {:induction false} FirstOf(rules: seq<KeywordRule>, words: seq<string>, i: nat) returns (first: nat)
    requires i < |rules| && HasSequence(words, rules[i].sequence)
    ensures FirstMatch(rules, words, first)
    decreases i
  {
    if m: nat :| m < i && HasSequence(words, rules[m].sequence) {
      first := FirstOf(rules, words, m);
    } else {
      first := i;
    }
  }
}
