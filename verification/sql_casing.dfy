/**
 * The read-only verdict on the text of a query (internal/databasesql/policy.go:31-90): which runs of letters spell which
 * keywords, in whatever casing.
 */
module SqlCasing {
  import opened GoStrings
  import opened SqlKeywords
  import opened SqlPolicy
  import opened SqlQuoting

  /** Rune by rune, `text` is `word` in some casing. */
  predicate Spells(abc: Alphabet, text: string, word: string) {
    |text| == |word| && forall i :: 0 <= i < |text| ==> abc.lower(text[i]) == word[i]
  }

  function Text(q: string, s: Span): string
    requires s.lo <= s.hi <= |q|
  {
    q[s.lo..s.hi]
  }

  /** From run `k` on, the runs spell the sequence. */
  predicate SpellsAt(abc: Alphabet, q: string, spans: seq<Span>, sequence: seq<string>, k: nat)
    requires forall i :: 0 <= i < |spans| ==> spans[i].lo <= spans[i].hi <= |q|
  {
    k + |sequence| <= |spans| && forall j :: 0 <= j < |sequence| ==> Spells(abc, Text(q, spans[k + j]), sequence[j])
  }

  lemma MappedIsSpelled(abc: Alphabet, text: string, word: string)
    ensures MapRunes(abc.lower, text) == word <==> Spells(abc, text, word)
  {
  }

  /** Keywords are in lower case: mapping them again changes nothing. */
  lemma KeywordsAreLower(abc: Alphabet, pairs: Pairs, q: string)
    requires CaseMapping(abc.lower)
    ensures forall w :: w in KeywordsOf(abc, pairs, q) ==> MapRunes(abc.lower, w) == w
  {
    var spans := KeywordsAreRuns(abc, pairs, q);
    forall w | w in KeywordsOf(abc, pairs, q)
      ensures MapRunes(abc.lower, w) == w
    {
      var i :| 0 <= i < |spans| && w == MapRunes(abc.lower, q[spans[i].lo..spans[i].hi]);
      CaseMappingIsIdempotent(abc.lower, q[spans[i].lo..spans[i].hi]);
    }
  }

  lemma WordsAreSpelled(abc: Alphabet, pairs: Pairs, q: string, spans: seq<Span>)
    requires AreRuns(abc, pairs, q, spans)
    ensures |KeywordsOf(abc, pairs, q)| == |spans|
    ensures forall i, w :: 0 <= i < |spans| ==> (KeywordsOf(abc, pairs, q)[i] == w <==> Spells(abc, Text(q, spans[i]), w))
  {
    var found := KeywordsAreRuns(abc, pairs, q);
    RunsAreUnique(abc, pairs, q, spans, found);
    forall i, w | 0 <= i < |spans|
      ensures KeywordsOf(abc, pairs, q)[i] == w <==> Spells(abc, Text(q, spans[i]), w)
    {
      MappedIsSpelled(abc, Text(q, spans[i]), w);
    }
  }

  lemma SequenceIsSpelled(abc: Alphabet, q: string, spans: seq<Span>, words: seq<string>, sequence: seq<string>)
    requires |words| == |spans| && forall i :: 0 <= i < |spans| ==> spans[i].lo <= spans[i].hi <= |q|
    requires forall i, w :: 0 <= i < |spans| ==> (words[i] == w <==> Spells(abc, Text(q, spans[i]), w))
    ensures HasSequence(words, sequence) <==> sequence != [] && exists k: nat :: SpellsAt(abc, q, spans, sequence, k)
  {
    forall k: nat | k + |sequence| <= |words|
      ensures MatchesAt(words, sequence, k) <==> SpellsAt(abc, q, spans, sequence, k)
    {
      var part := words[k..k + |sequence|];
      assert part == sequence <==> forall j :: 0 <= j < |sequence| ==> part[j] == sequence[j];
    }
    if HasSequence(words, sequence) {
      var k :| 0 <= k <= |words| - |sequence| && MatchesAt(words, sequence, k);
      assert SpellsAt(abc, q, spans, sequence, k);
    }
    if k: nat :| SpellsAt(abc, q, spans, sequence, k) {
      assert MatchesAt(words, sequence, k);
    }
  }

  /** Some run spells a word of the list. */
  ghost predicate Spelled(abc: Alphabet, q: string, s: Span, words: seq<string>)
    requires s.lo <= s.hi <= |q|
  {
    exists w :: w in words && Spells(abc, Text(q, s), w)
  }

  /** What the text of an accepted statement is. */
  ghost predicate ReadsOnly(abc: Alphabet, p: Policy, statement: string, spans: seq<Span>)
    requires forall i :: 0 <= i < |spans| ==> spans[i].lo <= spans[i].hi <= |statement|
  {
    && spans != [] && Spelled(abc, statement, spans[0], p.allowed)
    && (forall i :: 0 <= i < |spans| ==> !Spelled(abc, statement, spans[i], p.denied))
    && (forall i :: 0 <= i < |p.rules| && p.rules[i].sequence != [] ==>
          !exists k: nat :: SpellsAt(abc, statement, spans, p.rules[i].sequence, k))
  }

  /** Acceptance on the text: the first run spells an allowed keyword, none a denied one, and no stretch of runs a rule. */
  lemma AcceptedOnText(abc: Alphabet, p: Policy, query: string, statement: string, spans: seq<Span>)
    requires forall i :: 0 <= i < |p.rules| ==> p.rules[i].code != ""
    requires statement == TrimSpace(WithoutSemicolon(TrimSpace(query))) && AreRuns(abc, p.pairs, statement, spans)
    ensures IsVerdict(abc, p, query, "")
       <==> !Unsafe(p, TrimSpace(query)) && ';' !in statement && ReadsOnly(abc, p, statement, spans)
  {
    AcceptedIsReadOnly(abc, p, query);
    var words := KeywordsOf(abc, p.pairs, statement);
    WordsAreSpelled(abc, p.pairs, statement, spans);
    forall i | 0 <= i < |spans|
      ensures words[i] in p.allowed <==> Spelled(abc, statement, spans[i], p.allowed)
      ensures words[i] in p.denied <==> Spelled(abc, statement, spans[i], p.denied)
    {
      assert Spells(abc, Text(statement, spans[i]), words[i]);
    }
    forall i | 0 <= i < |p.rules|
      ensures HasSequence(words, p.rules[i].sequence)
         <==> p.rules[i].sequence != [] && exists k: nat :: SpellsAt(abc, statement, spans, p.rules[i].sequence, k)
    {
      SequenceIsSpelled(abc, statement, spans, words, p.rules[i].sequence);
    }
    assert (forall w :: w in words ==> w !in p.denied) <==> forall i :: 0 <= i < |spans| ==> words[i] !in p.denied;
  }

  /** A denied word in any casing outside quotes is never let through. */
  lemma DeniedInAnyCasing(abc: Alphabet, p: Policy, query: string, s: Span, word: string)
    requires forall i :: 0 <= i < |p.rules| ==> p.rules[i].code != ""
    requires var statement := TrimSpace(WithoutSemicolon(TrimSpace(query)));
             IsRun(abc, p.pairs, statement, s) && Spells(abc, Text(statement, s), word) && word in p.denied
    ensures !IsVerdict(abc, p, query, "")
  {
    var statement := TrimSpace(WithoutSemicolon(TrimSpace(query)));
    var spans := KeywordsAreRuns(abc, p.pairs, statement);
    var j := RunIsListed(abc, p.pairs, statement, s, spans);
    AcceptedOnText(abc, p, query, statement, spans);
    assert Spelled(abc, statement, spans[j], p.denied);
  }

  /** The first keyword is looked up in any casing: a query is refused for it exactly when its first run spells none that is allowed. */
  lemma FirstInAnyCasing(abc: Alphabet, p: Policy, query: string, statement: string, spans: seq<Span>)
    requires forall i :: 0 <= i < |p.rules| ==> p.rules[i].code != "readonly_query_required"
    requires statement == TrimSpace(WithoutSemicolon(TrimSpace(query))) && AreRuns(abc, p.pairs, statement, spans)
    requires !Unsafe(p, TrimSpace(query)) && ';' !in statement
    ensures IsVerdict(abc, p, query, "readonly_query_required")
       <==> spans == [] || !Spelled(abc, statement, spans[0], p.allowed)
  {
    WordsAreSpelled(abc, p.pairs, statement, spans);
    if spans != [] {
      var first := KeywordsOf(abc, p.pairs, statement)[0];
      assert Spells(abc, Text(statement, spans[0]), first);
    }
  }

  // ---- What a word is ----

  lemma {:induction false} NoQuoteIsOpen(pairs: Pairs, q: string, n: nat)
    requires n <= |q| && forall k :: 0 <= k < |q| ==> q[k] !in pairs
    ensures QuoteAfter(pairs, q[..n]) == NONE
  {
    if n > 0 {
      NoQuoteIsOpen(pairs, q, n - 1);
      assert q[..n][..n - 1] == q[..n - 1];
    }
  }

  /** Letters and underscores make one keyword, */
  lemma LettersAreOneWord(abc: Alphabet, pairs: Pairs, q: string)
    requires q != "" && forall k :: 0 <= k < |q| ==> q[k] !in pairs && (abc.isLetter(q[k]) || q[k] == '_')
    ensures AreRuns(abc, pairs, q, [Span(0, |q|)])
    ensures KeywordsOf(abc, pairs, q) == [MapRunes(abc.lower, q)]
  {
    var spans := [Span(0, |q|)];
    forall k: nat | k < |q|
      ensures InWord(abc, pairs, q, k) && Covered(spans, k)
    {
      NoQuoteIsOpen(pairs, q, k);
      assert spans[0].lo <= k < spans[0].hi;
    }
    assert AreRuns(abc, pairs, q, spans);
    WordsAreSpelled(abc, pairs, q, spans);
    assert Text(q, spans[0]) == q;
    MappedIsSpelled(abc, q, MapRunes(abc.lower, q));
  }

  /** and without them there is none. */
  lemma OthersAreNoWord(abc: Alphabet, pairs: Pairs, q: string)
    requires forall k :: 0 <= k < |q| ==> !abc.isLetter(q[k]) && q[k] != '_'
    ensures KeywordsOf(abc, pairs, q) == []
  {
    assert forall k: nat :: k < |q| ==> !InWord(abc, pairs, q, k);
    assert AreRuns(abc, pairs, q, []);
    WordsAreSpelled(abc, pairs, q, []);
  }

  // ---- Two queries ----

  function AsciiLower(c: char): char {
    if 'A' <= c <= 'Z' then (c as int + 32) as char else c
  }

  const ASCII := Alphabet(c => 'a' <= c <= 'z' || 'A' <= c <= 'Z', AsciiLower)

  lemma PlainRun(q: string, s: Span)
    requires forall k :: 0 <= k < |q| ==> q[k] !in QUOTES
    requires s.lo < s.hi <= |q| && forall k :: s.lo <= k < s.hi ==> ASCII.isLetter(q[k])
    requires s.lo == 0 || q[s.lo - 1] == ' '
    requires s.hi == |q| || q[s.hi] == ' '
    ensures IsRun(ASCII, QUOTES, q, s)
  {
    forall k: nat | s.lo <= k < s.hi
      ensures InWord(ASCII, QUOTES, q, k)
    {
      NoQuoteIsOpen(QUOTES, q, k);
    }
  }

  /** Capitals do not get a write past the check. */
  lemma ConcreteWrite()
    ensures !IsVerdict(ASCII, BIG_QUERY, "with t DELETE", "")
  {
    var q, s := "with t DELETE", Span(7, 13);
    assert q[0] == 'w' && q[12] == 'E';
    TrimmedIsFixed(q);
    PlainRun(q, s);
    assert Text(q, s) == "DELETE";
    assert BIG_QUERY.denied[3] == "delete";
    DeniedInAnyCasing(ASCII, BIG_QUERY, q, s, "delete");
  }

  /** A fragment starts with a rune of the text. */
  lemma FragmentIsMade(q: string, f: string)
    requires f != "" && f[0] !in q
    ensures !Contains(q, f)
  {
    forall k | 0 <= k <= |q| - |f|
      ensures !OccursAt(q, f, k)
    {
      assert q[k..k + |f|][0] == q[k];
    }
  }

  lemma NothingUnsafe(q: string)
    requires q != "" && '\0' !in q && '-' !in q && '/' !in q && '*' !in q
    ensures !Unsafe(BIG_QUERY, q)
  {
    FragmentIsMade(q, "--");
    FragmentIsMade(q, "/*");
    FragmentIsMade(q, "*/");
    UnsafeIs(BIG_QUERY, q);
  }

  lemma NoneDenied(text: string)
    requires text == "SELECT" || text == "a"
    ensures forall w :: w in BIG_QUERY.denied ==> !Spells(ASCII, text, w)
  {
    assert forall w :: w in BIG_QUERY.denied ==> 1 < |w| && w[0] != 's';
    assert text[0] == 'S' || |text| == 1;
  }

  lemma TwoRuns(q: string, spans: seq<Span>)
    requires q == "SELECT a" && spans == [Span(0, 6), Span(7, 8)]
    ensures AreRuns(ASCII, QUOTES, q, spans)
  {
    PlainRun(q, spans[0]);
    PlainRun(q, spans[1]);
    forall k: nat | k < |q| && InWord(ASCII, QUOTES, q, k)
      ensures Covered(spans, k)
    {
      assert q[6] == ' ';
      assert spans[0].lo <= k < spans[0].hi || spans[1].lo <= k < spans[1].hi;
    }
  }

  lemma ReadsCapitals(q: string, spans: seq<Span>)
    requires q == "SELECT a" && spans == [Span(0, 6), Span(7, 8)]
    ensures ReadsOnly(ASCII, BIG_QUERY, q, spans)
  {
    assert Text(q, spans[0]) == "SELECT" && Text(q, spans[1]) == "a";
    NoneDenied("SELECT");
    NoneDenied("a");
    assert BIG_QUERY.allowed[0] == "select" && Spells(ASCII, "SELECT", "select");
  }

  /** And a query may be written in capitals. */
  lemma ConcreteRead()
    ensures IsVerdict(ASCII, BIG_QUERY, "SELECT a", "")
  {
    var q, spans := "SELECT a", [Span(0, 6), Span(7, 8)];
    assert q[0] == 'S' && q[7] == 'a';
    TrimmedIsFixed(q);
    TwoRuns(q, spans);
    NothingUnsafe(q);
    ReadsCapitals(q, spans);
    AcceptedOnText(ASCII, BIG_QUERY, q, q, spans);
  }
}
