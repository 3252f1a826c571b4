/**
 * The read-only SQL policy (internal/databasesql/policy.go:31-59) and its two hand-written copies for BigQuery
 * (internal/googlebigquery/provider.go:331-382) and Snowflake (internal/snowflakesql/provider.go:355-407).
 */
module SqlPolicy {
  import opened GoStrings
  import opened SqlKeywords

  datatype KeywordRule = KeywordRule(sequence: seq<string>, code: string)

  datatype Policy = Policy(allowed: seq<string>, denied: seq<string>, unsafe: seq<string>, pairs: Pairs, rules: seq<KeywordRule>)

  // ---- What the checks mean ----

  predicate Contains(s: string, f: string) {
    exists k :: 0 <= k <= |s| - |f| && OccursAt(s, f, k)
  }

  predicate OccursAt(s: string, f: string, k: int)
    requires 0 <= k <= |s| - |f|
  {
    s[k..k + |f|] == f
  }

  const COMMENTS: seq<string> := ["--", "/*", "*/"]

  predicate HasFragment(s: string, fragments: seq<string>) {
    exists i :: 0 <= i < |fragments| && fragments[i] != "" && Contains(s, fragments[i])
  }

  predicate Unsafe(p: Policy, trimmed: string) {
    trimmed == "" || '\0' in trimmed || HasFragment(trimmed, COMMENTS + p.unsafe)
  }

  /** Nothing, a NUL, a comment, or a fragment of the policy's own. */
  lemma UnsafeIs(p: Policy, trimmed: string)
    ensures Unsafe(p, trimmed)
       <==> || trimmed == "" || '\0' in trimmed
            || Contains(trimmed, "--") || Contains(trimmed, "/*") || Contains(trimmed, "*/")
            || exists f :: f in p.unsafe && f != "" && Contains(trimmed, f)
  {
    var all := COMMENTS + p.unsafe;
    assert all[0] == "--" && all[1] == "/*" && all[2] == "*/";
    if f :| f in p.unsafe && f != "" && Contains(trimmed, f) {
      var i :| 0 <= i < |p.unsafe| && p.unsafe[i] == f;
      assert all[3 + i] == f;
    }
    if HasFragment(trimmed, all) {
      var i :| 0 <= i < |all| && all[i] != "" && Contains(trimmed, all[i]);
      assert 3 <= i ==> all[i] == p.unsafe[i - 3];
    }
  }

  /** One final semicolon is taken off. */
  function WithoutSemicolon(s: string): (r: string)
    ensures s == r + ";" || (s == r && (s == "" || s[|s| - 1] != ';'))
  {
    if s != "" && s[|s| - 1] == ';' then s[..|s| - 1] else s
  }

  /** `sequence` stands in `words` without gaps; the empty sequence never does. */
  predicate HasSequence(words: seq<string>, sequence: seq<string>) {
    sequence != [] && exists k :: 0 <= k <= |words| - |sequence| && MatchesAt(words, sequence, k)
  }

  predicate MatchesAt(words: seq<string>, sequence: seq<string>, k: int)
    requires 0 <= k <= |words| - |sequence|
  {
    words[k..k + |sequence|] == sequence
  }

  predicate FirstMatch(rules: seq<KeywordRule>, words: seq<string>, i: nat) {
    && i < |rules| && HasSequence(words, rules[i].sequence)
    && forall m :: 0 <= m < i ==> !HasSequence(words, rules[m].sequence)
  }

  /** The verdict on the keywords of a query. */
  ghost predicate IsVerdictOnWords(p: Policy, words: seq<string>, code: string) {
    if words == [] || words[0] !in p.allowed then code == "readonly_query_required"
    else if exists i: nat :: FirstMatch(p.rules, words, i) then
      exists i: nat :: FirstMatch(p.rules, words, i) && code == p.rules[i].code
    else if exists w :: w in words && w in p.denied then code == "write_keyword_denied"
    else code == ""
  }

  ghost predicate IsVerdict(abc: Alphabet, p: Policy, query: string, code: string) {
    var trimmed := TrimSpace(query);
    var statement := TrimSpace(WithoutSemicolon(trimmed));
    if Unsafe(p, trimmed) then code == "query_unsafe"
    else if ';' in statement then code == "multiple_statements_denied"
    else IsVerdictOnWords(p, KeywordsOf(abc, p.pairs, statement), code)
  }

  // ---- The loops ----

  method ContainsAny(value: string, fragments: seq<string>) returns (r: bool)
    ensures r <==> HasFragment(value, fragments)
  {
    for i := 0 to |fragments|
      invariant forall m :: 0 <= m < i ==> fragments[m] == "" || !Contains(value, fragments[m])
    {
      if fragments[i] != "" && Contains(value, fragments[i]) {
        return true;
      }
    }
    return false;
  }

  method Member(values: seq<string>, target: string) returns (r: bool)
    ensures r <==> target in values
  {
    for i := 0 to |values|
      invariant target !in values[..i]
    {
      if values[i] == target {
        return true;
      }
    }
    return false;
  }

  method ContainsSequence(words: seq<string>, sequence: seq<string>) returns (r: bool)
    ensures r <==> HasSequence(words, sequence)
  {
    if |sequence| == 0 || |sequence| > |words| {
      return false;
    }
    for start := 0 to |words| - |sequence| + 1
      invariant forall k :: 0 <= k < start ==> !MatchesAt(words, sequence, k)
    {
      var matched := true;
      var offset := 0;
      while offset < |sequence|
        invariant offset <= |sequence|
        invariant matched <==> words[start..start + offset] == sequence[..offset]
        invariant !matched ==> !MatchesAt(words, sequence, start)
      {
        var expected := sequence[offset];
        if words[start + offset] != expected {
          assert words[start..start + |sequence|][offset] != sequence[offset];
          matched := false;
          break;
        }
        assert words[start..start + offset + 1] == words[start..start + offset] + [words[start + offset]];
        assert sequence[..offset + 1] == sequence[..offset] + [expected];
        offset := offset + 1;
      }
      if matched {
        assert sequence[..|sequence|] == sequence && MatchesAt(words, sequence, start);
        return true;
      }
    }
    return false;
  }

  method JudgeWords(p: Policy, words: seq<string>) returns (code: string)
    ensures IsVerdictOnWords(p, words, code)
  {
    if |words| == 0 {
      return "readonly_query_required";
    }
    var allowed := Member(p.allowed, words[0]);
    if !allowed {
      return "readonly_query_required";
    }
    for i := 0 to |p.rules|
      invariant forall m :: 0 <= m < i ==> !HasSequence(words, p.rules[m].sequence)
    {
      var found := ContainsSequence(words, p.rules[i].sequence);
      if found {
        assert FirstMatch(p.rules, words, i);
        return p.rules[i].code;
      }
    }
    var denied := set w | w in p.denied;
    for i := 0 to |words|
      invariant forall m :: 0 <= m < i ==> words[m] !in p.denied
    {
      if words[i] in denied {
        return "write_keyword_denied";
      }
    }
    return "";
  }

  method ValidateReadOnly(abc: Alphabet, query: string, p: Policy) returns (code: string)
    ensures IsVerdict(abc, p, query, code)
  {
    var trimmed := TrimSpace(query);
    var fragments := ContainsAny(trimmed, COMMENTS + p.unsafe);
    if trimmed == "" || '\0' in trimmed || fragments {
      return "query_unsafe";
    }
    var statement := TrimSpace(WithoutSemicolon(trimmed));
    if ';' in statement {
      return "multiple_statements_denied";
    }
    var words := Keywords(abc, statement, p.pairs);
    code := JudgeWords(p, words);
  }

  lemma FirstMatchIsUnique(rules: seq<KeywordRule>, words: seq<string>, i: nat, j: nat)
    requires FirstMatch(rules, words, i) && FirstMatch(rules, words, j)
    ensures i == j
  {
  }

  /** Any two validators that meet the specification agree on every query. */
  lemma VerdictIsUnique(abc: Alphabet, p: Policy, query: string, a: string, b: string)
    requires IsVerdict(abc, p, query, a) && IsVerdict(abc, p, query, b)
    ensures a == b
  {
    var words := KeywordsOf(abc, p.pairs, TrimSpace(WithoutSemicolon(TrimSpace(query))));
    if exists i: nat :: FirstMatch(p.rules, words, i) {
      var i: nat :| FirstMatch(p.rules, words, i);
      forall j: nat | FirstMatch(p.rules, words, j)
        ensures i == j
      {
        FirstMatchIsUnique(p.rules, words, i, j);
      }
    }
  }

  // ---- The two copies ----

  const QUOTES: Pairs := map['\'' := '\'', '\"' := '\"', '`' := '`']

  const BIG_QUERY := Policy(
    ["select", "with", "explain"],
    ["alter", "call", "create", "delete", "drop", "export", "grant", "insert", "load", "merge", "revoke", "truncate", "update"],
    [], QUOTES, [])

  const SNOWFLAKE := Policy(
    ["select", "with", "show", "describe", "explain"],
    ["alter", "call", "copy", "create", "delete", "drop", "execute", "grant", "insert", "merge", "put", "remove", "revoke",
     "truncate", "undrop", "update", "use"],
    [], QUOTES, [])

  /** The copied scanner: the same three quotes, each closed by itself, compared directly. */
  method SqlWords(abc: Alphabet, query: string) returns (words: seq<string>)
    ensures words == KeywordsOf(abc, QUOTES, query)
  {
    words := [];
    var current := "";
    var quote := NONE;
    for k := 0 to |query|
      invariant Scan(words, current, quote) == ScanFrom(abc, QUOTES, EMPTY, query[..k])
    {
      assert query[..k + 1][..k] == query[..k];
      var c := query[k];
      if quote != NONE {
        if c == quote {
          quote := NONE;
        }
        continue;
      }
      if c == '\'' || c == '\"' || c == '`' {
        if current != "" {
          words, current := words + [MapRunes(abc.lower, current)], "";
        }
        quote := c;
        continue;
      }
      if abc.isLetter(c) || c == '_' {
        current := current + [c];
      } else if current != "" {
        words, current := words + [MapRunes(abc.lower, current)], "";
      }
    }
    assert query[..|query|] == query;
    if current != "" {
      words := words + [MapRunes(abc.lower, current)];
    }
  }

  /** The part the two copies share, up to their word lists. */
  method JudgeCopy(abc: Alphabet, query: string, allowed: set<string>, denied: set<string>) returns (code: string)
    ensures forall p: Policy :: p.unsafe == [] && p.pairs == QUOTES && p.rules == []
              && (forall w :: w in p.allowed <==> w in allowed) && (forall w :: w in p.denied <==> w in denied)
              ==> IsVerdict(abc, p, query, code)
  {
    var trimmed := TrimSpace(query);
    CommentsOnly(trimmed);
    if trimmed == "" || '\0' in trimmed || Contains(trimmed, "--") || Contains(trimmed, "/*") || Contains(trimmed, "*/") {
      return "query_unsafe";
    }
    var statement := TrimSpace(WithoutSemicolon(trimmed));
    if ';' in statement {
      return "multiple_statements_denied";
    }
    var words := SqlWords(abc, statement);
    if |words| == 0 || words[0] !in allowed {
      return "readonly_query_required";
    }
    for i := 0 to |words|
      invariant forall m :: 0 <= m < i ==> words[m] !in denied
    {
      if words[i] in denied {
        return "write_keyword_denied";
      }
    }
    return "";
  }

  lemma CommentsOnly(s: string)
    ensures HasFragment(s, COMMENTS + []) <==> Contains(s, "--") || Contains(s, "/*") || Contains(s, "*/")
  {
    var f := COMMENTS + [];
    assert f[0] == "--" && f[1] == "/*" && f[2] == "*/";
  }

  method BigQueryValidate(abc: Alphabet, query: string) returns (code: string)
    ensures IsVerdict(abc, BIG_QUERY, query, code)
  {
    code := JudgeCopy(abc, query, {"select", "with", "explain"},
      {"alter", "call", "create", "delete", "drop", "export", "grant", "insert", "load", "merge", "revoke", "truncate", "update"});
  }

  method SnowflakeValidate(abc: Alphabet, query: string) returns (code: string)
    ensures IsVerdict(abc, SNOWFLAKE, query, code)
  {
    code := JudgeCopy(abc, query, {"select", "with", "show", "describe", "explain"},
      {"alter", "call", "copy", "create", "delete", "drop", "execute", "grant", "insert", "merge", "put", "remove", "revoke",
       "truncate", "undrop", "update", "use"});
  }
}
