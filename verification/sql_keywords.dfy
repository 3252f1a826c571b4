/**
 * The keyword scanner of the read-only SQL policy (internal/databasesql/policy.go:60-90) and what it computes: the maximal
 * runs of letters and underscores outside quoted regions.
 */
module SqlKeywords {
  import opened GoStrings

  type Pairs = map<char, char>

  /** `unicode.IsLetter` and `unicode.ToLower`, left abstract. */
  datatype Alphabet = Alphabet(isLetter: char -> bool, lower: char -> char)

  /** The closing rune of an open quote is kept in one variable in which rune 0 means that none is open. */
  const NONE: char := '\0'

  // ---- The scanner as a fold ----

  datatype Scan = Scan(words: seq<string>, current: string, quote: char)

  function Flushed(abc: Alphabet, s: Scan): Scan {
    if s.current == "" then s else Scan(s.words + [MapRunes(abc.lower, s.current)], "", s.quote)
  }

  predicate IsWordRune(abc: Alphabet, pairs: Pairs, c: char) {
    c !in pairs && (abc.isLetter(c) || c == '_')
  }

  function Step(abc: Alphabet, pairs: Pairs, s: Scan, c: char): Scan {
    if s.quote != NONE then
      if c == s.quote then s.(quote := NONE) else s
    else if c in pairs then Flushed(abc, s).(quote := pairs[c])
    else if IsWordRune(abc, pairs, c) then s.(current := s.current + [c])
    else Flushed(abc, s)
  }

  function ScanFrom(abc: Alphabet, pairs: Pairs, s: Scan, q: string): Scan {
    if q == "" then s else Step(abc, pairs, ScanFrom(abc, pairs, s, q[..|q| - 1]), q[|q| - 1])
  }

  const EMPTY := Scan([], "", NONE)

  function KeywordsOf(abc: Alphabet, pairs: Pairs, q: string): seq<string> {
    Flushed(abc, ScanFrom(abc, pairs, EMPTY, q)).words
  }

  method Keywords(abc: Alphabet, q: string, pairs: Pairs) returns (words: seq<string>)
    ensures words == KeywordsOf(abc, pairs, q)
  {
    words := [];
    var current := "";
    var quoteEnd := NONE;
    for k := 0 to |q|
      invariant Scan(words, current, quoteEnd) == ScanFrom(abc, pairs, EMPTY, q[..k])
    {
      assert q[..k + 1][..k] == q[..k];
      var c := q[k];
      if quoteEnd != NONE {
        if c == quoteEnd {
          quoteEnd := NONE;
        }
        continue;
      }
      if c in pairs {
        if current != "" {
          words, current := words + [MapRunes(abc.lower, current)], "";
        }
        quoteEnd := pairs[c];
        continue;
      }
      if abc.isLetter(c) || c == '_' {
        current := current + [c];
      } else if current != "" {
        words, current := words + [MapRunes(abc.lower, current)], "";
      }
    }
    assert q[..|q|] == q;
    if current != "" {
      words := words + [MapRunes(abc.lower, current)];
    }
  }

  // ---- The declarative reading ----

  /** The quote open after `q`, if any. */
  function QuoteAfter(pairs: Pairs, q: string): char {
    if q == "" then NONE
    else
      var open, c := QuoteAfter(pairs, q[..|q| - 1]), q[|q| - 1];
      if open != NONE then (if c == open then NONE else open)
      else if c in pairs then pairs[c]
      else NONE
  }

  /** Position `k` holds a letter or underscore outside every quoted region. */
  predicate InWord(abc: Alphabet, pairs: Pairs, q: string, k: nat)
    requires k < |q|
  {
    QuoteAfter(pairs, q[..k]) == NONE && IsWordRune(abc, pairs, q[k])
  }

  datatype Span = Span(lo: nat, hi: nat)

  ghost predicate IsRun(abc: Alphabet, pairs: Pairs, q: string, s: Span) {
    && s.lo < s.hi <= |q|
    && (forall k: nat :: s.lo <= k < s.hi ==> InWord(abc, pairs, q, k))
    && (s.lo == 0 || !InWord(abc, pairs, q, s.lo - 1))
    && (s.hi == |q| || !InWord(abc, pairs, q, s.hi))
  }

  ghost predicate Covered(spans: seq<Span>, k: nat) {
    exists i :: 0 <= i < |spans| && spans[i].lo <= k < spans[i].hi
  }

  /** All the maximal runs of `q`, from left to right. */
  ghost predicate AreRuns(abc: Alphabet, pairs: Pairs, q: string, spans: seq<Span>) {
    && (forall i :: 0 <= i < |spans| ==> IsRun(abc, pairs, q, spans[i]))
    && (forall i :: 0 < i < |spans| ==> spans[i - 1].hi < spans[i].lo)
    && (forall k: nat :: k < |q| && InWord(abc, pairs, q, k) ==> Covered(spans, k))
  }

  function WordsOf(abc: Alphabet, q: string, spans: seq<Span>): (r: seq<string>)
    requires forall i :: 0 <= i < |spans| ==> spans[i].lo <= spans[i].hi <= |q|
  {
    seq(|spans|, i requires 0 <= i < |spans| => MapRunes(abc.lower, q[spans[i].lo..spans[i].hi]))
  }

  lemma {:induction false} QuoteOfScan(abc: Alphabet, pairs: Pairs, q: string)
    ensures ScanFrom(abc, pairs, EMPTY, q).quote == QuoteAfter(pairs, q)
  {
    if q != "" {
      QuoteOfScan(abc, pairs, q[..|q| - 1]);
    }
  }

  /** `spans` are the runs that end before `start`, where the unfinished word begins; nothing else is in a word. */
  ghost predicate Scanned(abc: Alphabet, pairs: Pairs, q: string, spans: seq<Span>, start: nat) {
    && start <= |q|
    && (forall i :: 0 <= i < |spans| ==> spans[i].lo < spans[i].hi < |q| && spans[i].hi <= start
                                         && IsRun(abc, pairs, q, spans[i]))
    && (forall i :: 0 < i < |spans| ==> spans[i - 1].hi < spans[i].lo)
    && (spans != [] && start < |q| ==> spans[|spans| - 1].hi < start)
    && (forall k: nat :: start <= k < |q| ==> InWord(abc, pairs, q, k))
    && (0 < start ==> !InWord(abc, pairs, q, start - 1))
    && (forall k: nat :: k < start && InWord(abc, pairs, q, k) ==> Covered(spans, k))
  }

  lemma InWordOfPrefix(abc: Alphabet, pairs: Pairs, q: string, n: nat, k: nat)
    requires k < n <= |q|
    ensures InWord(abc, pairs, q[..n], k) == InWord(abc, pairs, q, k)
  {
    assert q[..n][..k] == q[..k];
  }

  lemma RunOfPrefix(abc: Alphabet, pairs: Pairs, q: string, n: nat, s: Span)
    requires n <= |q| && s.lo < s.hi <= n && (s.hi < n || n == |q| || !InWord(abc, pairs, q, n))
    ensures IsRun(abc, pairs, q[..n], s) ==> IsRun(abc, pairs, q, s)
  {
    if IsRun(abc, pairs, q[..n], s) {
      forall k: nat | s.lo <= k < s.hi
        ensures InWord(abc, pairs, q, k)
      {
        InWordOfPrefix(abc, pairs, q, n, k);
      }
      if 0 < s.lo {
        InWordOfPrefix(abc, pairs, q, n, s.lo - 1);
      }
      if s.hi < n {
        InWordOfPrefix(abc, pairs, q, n, s.hi);
      }
    }
  }

  /** One more rune of a word. */
  lemma ScannedWordRune(abc: Alphabet, pairs: Pairs, q: string, n: nat, spans: seq<Span>, start: nat)
    requires n == |q| - 1 && Scanned(abc, pairs, q[..n], spans, start) && InWord(abc, pairs, q, n)
    ensures Scanned(abc, pairs, q, spans, start)
  {
    forall i | 0 <= i < |spans|
      ensures IsRun(abc, pairs, q, spans[i])
    {
      RunOfPrefix(abc, pairs, q, n, spans[i]);
    }
    forall k: nat | k < n
      ensures InWord(abc, pairs, q[..n], k) == InWord(abc, pairs, q, k)
    {
      InWordOfPrefix(abc, pairs, q, n, k);
    }
  }

  /** A rune outside words ends the one before it, if any. */
  lemma ScannedOtherRune(abc: Alphabet, pairs: Pairs, q: string, n: nat, spans: seq<Span>, start: nat)
    requires n == |q| - 1 && Scanned(abc, pairs, q[..n], spans, start) && !InWord(abc, pairs, q, n)
    ensures Scanned(abc, pairs, q, if start < n then spans + [Span(start, n)] else spans, |q|)
  {
    var spans' := if start < n then spans + [Span(start, n)] else spans;
    forall i | 0 <= i < |spans'|
      ensures IsRun(abc, pairs, q, spans'[i]) && spans'[i].hi < |q|
    {
      if i < |spans| {
        assert spans'[i] == spans[i];
      } else {
        assert IsRun(abc, pairs, q[..n], Span(start, n));
      }
      RunOfPrefix(abc, pairs, q, n, spans'[i]);
    }
    forall k: nat | k < |q| && InWord(abc, pairs, q, k)
      ensures Covered(spans', k)
    {
      InWordOfPrefix(abc, pairs, q, n, k);
      CoveredByLonger(spans, Span(start, n), spans', k);
    }
  }

  lemma CoveredByLonger(spans: seq<Span>, last: Span, longer: seq<Span>, k: nat)
    requires longer == if last.lo < last.hi then spans + [last] else spans
    requires last.lo <= k < last.hi || Covered(spans, k)
    ensures Covered(longer, k)
  {
    if last.lo <= k < last.hi {
      assert longer[|spans|] == last;
    } else {
      var i :| 0 <= i < |spans| && spans[i].lo <= k < spans[i].hi;
      assert longer[i] == spans[i];
    }
  }

  lemma {:induction false} ScanIsScanned(abc: Alphabet, pairs: Pairs, q: string) returns (spans: seq<Span>, start: nat)
    ensures Scanned(abc, pairs, q, spans, start)
    ensures var s := ScanFrom(abc, pairs, EMPTY, q); s.words == WordsOf(abc, q, spans) && s.current == q[start..]
  {
    if q == "" {
      spans, start := [], 0;
    } else {
      var n := |q| - 1;
      var before, begin := ScanIsScanned(abc, pairs, q[..n]);
      if InWord(abc, pairs, q, n) {
        ScannedWordRune(abc, pairs, q, n, before, begin);
        spans, start := before, begin;
      } else {
        ScannedOtherRune(abc, pairs, q, n, before, begin);
        spans, start := if begin < n then before + [Span(begin, n)] else before, |q|;
      }
      ScanStep(abc, pairs, q, n, before, begin);
    }
  }

  lemma ScanWordRune(abc: Alphabet, pairs: Pairs, q: string, n: nat, s: Scan, start: nat)
    requires n == |q| - 1 && start <= n && InWord(abc, pairs, q, n) && s.current == q[start..n] && s.quote == NONE
    ensures var t := Step(abc, pairs, s, q[n]); t.words == s.words && t.current == q[start..]
  {
    assert q[start..n] + [q[n]] == q[start..];
  }

  lemma ScanOtherRune(abc: Alphabet, pairs: Pairs, q: string, n: nat, s: Scan, spans: seq<Span>, start: nat)
    requires n == |q| - 1 && Scanned(abc, pairs, q[..n], spans, start) && !InWord(abc, pairs, q, n)
    requires s.words == WordsOf(abc, q, spans) && s.current == q[start..n] && s.quote == QuoteAfter(pairs, q[..n])
    ensures var t := Step(abc, pairs, s, q[n]);
            t.current == "" && t.words == WordsOf(abc, q, if start < n then spans + [Span(start, n)] else spans)
  {
    if start < n {
      WordIsUnquoted(abc, pairs, q[..n]);
      WordsOfAppend(abc, q, spans, Span(start, n));
    }
    OtherRuneFlushes(abc, pairs, s, q[n]);
  }

  /** What the scanner does with one more rune, in terms of the runs so far. */
  lemma ScanStep(abc: Alphabet, pairs: Pairs, q: string, n: nat, spans: seq<Span>, start: nat)
    requires n == |q| - 1 && Scanned(abc, pairs, q[..n], spans, start)
    requires var s := ScanFrom(abc, pairs, EMPTY, q[..n]); s.words == WordsOf(abc, q[..n], spans) && s.current == q[..n][start..]
    ensures var s := ScanFrom(abc, pairs, EMPTY, q);
            if InWord(abc, pairs, q, n) then s.words == WordsOf(abc, q, spans) && s.current == q[start..]
            else s.current == "" && s.words == WordsOf(abc, q, if start < n then spans + [Span(start, n)] else spans)
  {
    var s := ScanFrom(abc, pairs, EMPTY, q[..n]);
    QuoteOfScan(abc, pairs, q[..n]);
    WordsOfPrefix(abc, q, n, spans);
    assert q[..n][start..] == q[start..n];
    if InWord(abc, pairs, q, n) {
      ScanWordRune(abc, pairs, q, n, s, start);
    } else {
      ScanOtherRune(abc, pairs, q, n, s, spans, start);
    }
  }

  lemma OtherRuneFlushes(abc: Alphabet, pairs: Pairs, s: Scan, c: char)
    requires s.quote != NONE || !IsWordRune(abc, pairs, c)
    requires s.quote != NONE ==> s.current == ""
    ensures var t := Step(abc, pairs, s, c); t.current == "" && t.words == Flushed(abc, s).words
  {
  }

  lemma WordIsUnquoted(abc: Alphabet, pairs: Pairs, q: string)
    requires q != "" && InWord(abc, pairs, q, |q| - 1)
    ensures QuoteAfter(pairs, q) == NONE
  {
  }

  lemma WordsOfPrefix(abc: Alphabet, q: string, n: nat, spans: seq<Span>)
    requires n <= |q| && forall i :: 0 <= i < |spans| ==> spans[i].lo <= spans[i].hi <= n
    ensures WordsOf(abc, q[..n], spans) == WordsOf(abc, q, spans)
  {
    forall i | 0 <= i < |spans|
      ensures q[..n][spans[i].lo..spans[i].hi] == q[spans[i].lo..spans[i].hi]
    {
    }
  }

  lemma WordsOfAppend(abc: Alphabet, q: string, spans: seq<Span>, s: Span)
    requires forall i :: 0 <= i < |spans| ==> spans[i].lo <= spans[i].hi <= |q|
    requires s.lo <= s.hi <= |q|
    ensures WordsOf(abc, q, spans + [s]) == WordsOf(abc, q, spans) + [MapRunes(abc.lower, q[s.lo..s.hi])]
  {
  }

  /** At the end of the query the unfinished word, if any, is the last run. */
  lemma ScannedToTheEnd(abc: Alphabet, pairs: Pairs, q: string, spans: seq<Span>, start: nat)
    requires Scanned(abc, pairs, q, spans, start)
    ensures AreRuns(abc, pairs, q, if start < |q| then spans + [Span(start, |q|)] else spans)
  {
    if start < |q| {
      var all := spans + [Span(start, |q|)];
      forall i | 0 <= i < |all|
        ensures IsRun(abc, pairs, q, all[i])
      {
        if i < |spans| {
          assert all[i] == spans[i];
        }
      }
      forall k: nat | k < |q| && InWord(abc, pairs, q, k)
        ensures Covered(all, k)
      {
        CoveredByLonger(spans, Span(start, |q|), all, k);
      }
    }
  }

  /** The scanner returns exactly the maximal runs, lower-cased and in order. */
  lemma KeywordsAreRuns(abc: Alphabet, pairs: Pairs, q: string) returns (spans: seq<Span>)
    ensures AreRuns(abc, pairs, q, spans) && KeywordsOf(abc, pairs, q) == WordsOf(abc, q, spans)
  {
    var start;
    spans, start := ScanIsScanned(abc, pairs, q);
    ScannedToTheEnd(abc, pairs, q, spans, start);
    if start < |q| {
      WordsOfAppend(abc, q, spans, Span(start, |q|));
      assert q[start..|q|] == q[start..];
      spans := spans + [Span(start, |q|)];
    }
  }

  /** Every run of one list is in the other. */
  lemma RunIsListed(abc: Alphabet, pairs: Pairs, q: string, s: Span, b: seq<Span>) returns (j: nat)
    requires IsRun(abc, pairs, q, s) && AreRuns(abc, pairs, q, b)
    ensures j < |b| && b[j] == s
  {
    assert InWord(abc, pairs, q, s.lo);
    j :| 0 <= j < |b| && b[j].lo <= s.lo < b[j].hi;
    SameRun(abc, pairs, q, s, b[j]);
  }

  /** Two runs that share a position are the same. */
  lemma SameRun(abc: Alphabet, pairs: Pairs, q: string, s: Span, t: Span)
    requires IsRun(abc, pairs, q, s) && IsRun(abc, pairs, q, t) && t.lo <= s.lo < t.hi
    ensures s == t
  {
  }

  ghost predicate Apart(s: seq<Span>) {
    && (forall k :: 0 <= k < |s| ==> s[k].lo < s[k].hi)
    && (forall k :: 0 < k < |s| ==> s[k - 1].hi < s[k].lo)
  }

  lemma {:induction false} Ordered(s: seq<Span>, i: nat, j: nat)
    requires Apart(s) && i <= j < |s|
    ensures i < j ==> s[i].lo < s[j].lo
    decreases j
  {
    if i < j {
      Ordered(s, i, j - 1);
    }
  }

  /** There is only one way to list the runs, so `KeywordsAreRuns` pins the scanner's result down. */
  lemma RunsAreUnique(abc: Alphabet, pairs: Pairs, q: string, a: seq<Span>, b: seq<Span>)
    requires AreRuns(abc, pairs, q, a) && AreRuns(abc, pairs, q, b)
    ensures a == b
  {
    forall k | 0 <= k < |a|
      ensures a[k] in b
    {
      var j := RunIsListed(abc, pairs, q, a[k], b);
    }
    forall k | 0 <= k < |b|
      ensures b[k] in a
    {
      var j := RunIsListed(abc, pairs, q, b[k], a);
    }
    assert a != [] ==> a[0] in b;
    assert b != [] ==> b[0] in a;
    RunsAreApart(abc, pairs, q, a);
    RunsAreApart(abc, pairs, q, b);
    SameLists(a, b);
  }

  lemma RunsAreApart(abc: Alphabet, pairs: Pairs, q: string, a: seq<Span>)
    requires AreRuns(abc, pairs, q, a)
    ensures Apart(a)
  {
    forall k | 0 <= k < |a|
      ensures a[k].lo < a[k].hi
    {
      assert IsRun(abc, pairs, q, a[k]);
    }
  }

  ghost predicate Within(a: seq<Span>, b: seq<Span>) {
    (b == [] ==> a == []) && forall k :: 0 <= k < |a| ==> a[k] in b
  }

  /** Two lists of spans from left to right with the same members are the same list. */
  lemma {:induction false} SameLists(a: seq<Span>, b: seq<Span>)
    requires Apart(a) && Apart(b) && Within(a, b) && Within(b, a)
    ensures a == b
  {
    if a != [] {
      SameFirst(a, b);
      TailsWithin(a, b);
      TailsWithin(b, a);
      SameLists(a[1..], b[1..]);
      SameHeadAndTail(a, b);
    }
  }

  lemma SameHeadAndTail(a: seq<Span>, b: seq<Span>)
    requires a != [] && b != [] && a[0] == b[0] && a[1..] == b[1..]
    ensures a == b
  {
    assert a == [a[0]] + a[1..];
    assert b == [b[0]] + b[1..];
  }

  lemma SameFirst(a: seq<Span>, b: seq<Span>)
    requires Apart(a) && Apart(b) && Within(a, b) && Within(b, a) && a != []
    ensures b != [] && a[0] == b[0]
  {
    assert a[0] in b;
    assert b[0] in a;
    FirstIsLeast(a, b[0]);
    FirstIsLeast(b, a[0]);
  }

  lemma FirstIsLeast(a: seq<Span>, s: Span)
    requires Apart(a) && s in a
    ensures a[0].lo <= s.lo && (s.lo == a[0].lo ==> s == a[0])
  {
    var k :| 0 <= k < |a| && a[k] == s;
    Ordered(a, 0, k);
  }

  lemma TailsWithin(a: seq<Span>, b: seq<Span>)
    requires Apart(a) && Within(a, b) && a != [] && b != [] && a[0] == b[0]
    ensures Within(a[1..], b[1..]) && Apart(a[1..])
  {
    forall k | 0 <= k < |a[1..]|
      ensures a[1..][k] in b[1..]
    {
      Ordered(a, 0, k + 1);
      assert a[k + 1] in b;
      var j :| 0 <= j < |b| && b[j] == a[k + 1];
      assert j != 0 && b[1..][j - 1] == a[k + 1];
    }
    assert 1 < |a| ==> a[1..][0] in b[1..];
  }

  // ---- Concatenation and quoted regions ----

  lemma {:induction false} ScanCompose(abc: Alphabet, pairs: Pairs, s: Scan, a: string, b: string)
    ensures ScanFrom(abc, pairs, s, a + b) == ScanFrom(abc, pairs, ScanFrom(abc, pairs, s, a), b)
  {
    if b == "" {
      assert a + b == a;
    } else {
      ScanCompose(abc, pairs, s, a, b[..|b| - 1]);
      assert (a + b)[..|a + b| - 1] == a + b[..|b| - 1];
    }
  }

  /** Words already found stay in front and do not influence the rest. */
  lemma {:induction false} ScanShift(abc: Alphabet, pairs: Pairs, words: seq<string>, s: Scan, q: string)
    ensures var t := ScanFrom(abc, pairs, s, q);
            ScanFrom(abc, pairs, s.(words := words + s.words), q) == t.(words := words + t.words)
  {
    if q != "" {
      var init, c := q[..|q| - 1], q[|q| - 1];
      ScanShift(abc, pairs, words, s, init);
      StepShift(abc, pairs, words, ScanFrom(abc, pairs, s, init), c);
    }
  }

  lemma StepShift(abc: Alphabet, pairs: Pairs, words: seq<string>, s: Scan, c: char)
    ensures Step(abc, pairs, s.(words := words + s.words), c)
         == var t := Step(abc, pairs, s, c); t.(words := words + t.words)
  {
    var flushed := Flushed(abc, s).words;
    assert s.current != "" ==> words + s.words + [MapRunes(abc.lower, s.current)] == words + flushed;
  }

  /** With no quote open and a separator at the seam, keywords distribute over concatenation. */
  lemma KeywordsDistribute(abc: Alphabet, pairs: Pairs, a: string, b: string)
    requires QuoteAfter(pairs, a) == NONE
    requires a == "" || b == "" || !InWord(abc, pairs, a, |a| - 1) || !IsWordRune(abc, pairs, b[0])
    ensures KeywordsOf(abc, pairs, a + b) == KeywordsOf(abc, pairs, a) + KeywordsOf(abc, pairs, b)
  {
    var s := ScanFrom(abc, pairs, EMPTY, a);
    QuoteOfScan(abc, pairs, a);
    ScanCompose(abc, pairs, EMPTY, a, b);
    if b == "" {
      assert a + b == a && ScanFrom(abc, pairs, EMPTY, b) == EMPTY;
      assert KeywordsOf(abc, pairs, a) + KeywordsOf(abc, pairs, b) == KeywordsOf(abc, pairs, a);
    } else {
      if a == "" || !InWord(abc, pairs, a, |a| - 1) {
        NoUnfinishedWord(abc, pairs, a);
      } else {
        FlushFirst(abc, pairs, s, b);
      }
      var flushed := Flushed(abc, s);
      assert EMPTY.(words := flushed.words + []) == flushed;
      ScanShift(abc, pairs, flushed.words, EMPTY, b);
      var t := ScanFrom(abc, pairs, EMPTY, b);
      assert t.current != "" ==>
        flushed.words + t.words + [MapRunes(abc.lower, t.current)] == flushed.words + Flushed(abc, t).words;
    }
  }

  lemma NoUnfinishedWord(abc: Alphabet, pairs: Pairs, q: string)
    requires q == "" || !InWord(abc, pairs, q, |q| - 1)
    ensures ScanFrom(abc, pairs, EMPTY, q).current == ""
  {
    var spans, start := ScanIsScanned(abc, pairs, q);
    assert start == |q|;
  }

  /** A rune that is not part of a word flushes first, so it does not matter whether the word was flushed before. */
  lemma {:induction false} FlushFirst(abc: Alphabet, pairs: Pairs, s: Scan, q: string)
    requires q != "" && s.quote == NONE && !IsWordRune(abc, pairs, q[0])
    ensures ScanFrom(abc, pairs, s, q) == ScanFrom(abc, pairs, Flushed(abc, s), q)
  {
    var init := q[..|q| - 1];
    if init == "" {
      assert Flushed(abc, Flushed(abc, s)) == Flushed(abc, s);
    } else {
      FlushFirst(abc, pairs, s, init);
    }
  }

  /** A region from an opening rune to the next occurrence of its closing rune leaves no word and no open quote behind. */
  lemma {:induction false} BodyIsSkipped(abc: Alphabet, pairs: Pairs, s: Scan, body: string)
    requires s.quote != NONE && s.quote !in body
    ensures ScanFrom(abc, pairs, s, body) == s
  {
    if body != "" {
      BodyIsSkipped(abc, pairs, s, body[..|body| - 1]);
    }
  }

  lemma QuotedRegionIsSkipped(abc: Alphabet, pairs: Pairs, a: string, o: char, body: string, c: char, b: string)
    requires QuoteAfter(pairs, a) == NONE && o in pairs && pairs[o] == c && c != NONE && c !in body
    ensures KeywordsOf(abc, pairs, a + [o] + body + [c] + b) == KeywordsOf(abc, pairs, a) + KeywordsOf(abc, pairs, b)
  {
    var s := ScanFrom(abc, pairs, EMPTY, a);
    var flushed := Flushed(abc, s);
    var q := a + [o] + body + [c];
    QuoteOfScan(abc, pairs, a);
    ScanCompose(abc, pairs, EMPTY, a, [o]);
    ScanOne(abc, pairs, s, o);
    ScanCompose(abc, pairs, EMPTY, a + [o], body);
    BodyIsSkipped(abc, pairs, flushed.(quote := c), body);
    ScanCompose(abc, pairs, EMPTY, a + [o] + body, [c]);
    ScanOne(abc, pairs, flushed.(quote := c), c);
    assert ScanFrom(abc, pairs, EMPTY, q) == flushed;
    QuoteOfScan(abc, pairs, q);
    assert q[..|q| - 1] == a + [o] + body;
    QuoteOfScan(abc, pairs, a + [o] + body);
    KeywordsDistribute(abc, pairs, q, b);
  }

  lemma ScanOne(abc: Alphabet, pairs: Pairs, s: Scan, c: char)
    ensures ScanFrom(abc, pairs, s, [c]) == Step(abc, pairs, s, c)
  {
    assert [c][..0] == "";
  }
}
