/**
 * Provider-neutral journal validation and branch pairing (internal/accounting/journal/journal.go).
 *
 * Amounts are int64 values: every `+` and `-` on them below is checked by the verifier to stay in range, except where
 * `Pairing.Minus` spells out the wrap-around.
 */
module Journal {
  import opened GoStrings

  const MAX_INT64: int := 0x7fff_ffff_ffff_ffff

  newtype int64 = x: int | -0x8000_0000_0000_0000 <= x <= 0x7fff_ffff_ffff_ffff

  datatype Header = Header(batchKey: string, entryKey: string, transactionDate: string, currency: string, memo: string)

  datatype Line = Line(
    side: string, amount: int64, accountId: string, taxCode: string, departmentId: string,
    subAccountId: string, partnerCode: string, description: string, invoiceKind: string)

  /** `lines` is the caller's slice: `Validate` writes through it. */
  datatype Entry = Entry(header: Header, lines: array<Line>)

  datatype Branch = Branch(debitor: Line, creditor: Line)

  datatype Fault =
    | BatchKeyRequired | EntryKeyRequired | TransactionDateInvalid | CurrencyUnsupported
    | LinesInvalid | LineInvalid | AmountOverflow | Unbalanced

  /** `strings.TrimSpace`, `strings.ToLower` and `strings.ToUpper`, of which only the laws below are used. */
  datatype TextRules = TextRules(trim: string -> string, lower: string -> string, upper: string -> string) {
    ghost predicate Lawful() {
      && (forall s {:trigger trim(trim(s))} :: trim(trim(s)) == trim(s))
      && (forall s {:trigger trim(lower(trim(s)))} :: trim(lower(trim(s))) == lower(trim(s)))
      && (forall s {:trigger trim(upper(trim(s)))} :: trim(upper(trim(s))) == upper(trim(s)))
      && (forall s {:trigger lower(lower(s))} :: lower(lower(s)) == lower(s))
      && (forall s {:trigger upper(upper(s))} :: upper(upper(s)) == upper(s))
    }
  }

  /** Go's rules, for the case mappings `lower` and `upper` of its runes. */
  function GoRules(lower: char -> char, upper: char -> char): TextRules {
    TextRules(TrimSpace, s => MapRunes(lower, s), s => MapRunes(upper, s))
  }

  /** Trimming white space and any rune-wise case mapping obey the laws. */
  lemma GoRulesAreLawful(lower: char -> char, upper: char -> char)
    requires CaseMapping(lower) && CaseMapping(upper)
    ensures GoRules(lower, upper).Lawful()
  {
    var rules := GoRules(lower, upper);
    forall s
      ensures rules.trim(rules.trim(s)) == rules.trim(s)
      ensures rules.trim(rules.lower(rules.trim(s))) == rules.lower(rules.trim(s))
      ensures rules.trim(rules.upper(rules.trim(s))) == rules.upper(rules.trim(s))
      ensures rules.lower(rules.lower(s)) == rules.lower(s) && rules.upper(rules.upper(s)) == rules.upper(s)
    {
      TrimIsIdempotent(s);
      TrimSpaceTrims(s);
      CaseMappingKeepsTrimmed(lower, TrimSpace(s));
      CaseMappingKeepsTrimmed(upper, TrimSpace(s));
      CaseMappingIsIdempotent(lower, s);
      CaseMappingIsIdempotent(upper, s);
    }
  }

  // ---- Dates: time.Parse("2006-01-02", s) succeeds and formats back to s ----

  predicate Digits(s: string) {
    forall k :: 0 <= k < |s| ==> '0' <= s[k] <= '9'
  }

  function Number(s: string): (n: nat)
    requires Digits(s)
  {
    if s == "" then 0 else 10 * Number(s[..|s| - 1]) + (s[|s| - 1] as int - '0' as int)
  }

  function DaysIn(month: nat, year: nat): nat {
    if month == 2 then
      if year % 4 == 0 && (year % 100 != 0 || year % 400 == 0) then 29 else 28
    else if month in {4, 6, 9, 11} then 30
    else 31
  }

  /** The months of the calendar; February by the rule of centuries, and in four years that show it. */
  lemma MonthsAre(year: nat)
    ensures forall m: nat :: m in {1, 3, 5, 7, 8, 10, 12} ==> DaysIn(m, year) == 31
    ensures forall m: nat :: m in {4, 6, 9, 11} ==> DaysIn(m, year) == 30
    ensures DaysIn(2, year) == (if year % 400 == 0 then 29 else if year % 100 == 0 then 28 else if year % 4 == 0 then 29 else 28)
    ensures DaysIn(2, 1900) == 28 && DaysIn(2, 2000) == 29 && DaysIn(2, 2023) == 28 && DaysIn(2, 2024) == 29
  {
  }

  predicate ValidDate(s: string) {
    && |s| == 10 && s[4] == '-' && s[7] == '-'
    && Digits(s[..4]) && Digits(s[5..7]) && Digits(s[8..])
    && 1 <= Number(s[5..7]) <= 12
    && 1 <= Number(s[8..]) <= DaysIn(Number(s[5..7]), Number(s[..4]))
  }

  function TwoDigits(n: nat): string
    requires n < 100
  {
    [('0' as int + n / 10) as char, ('0' as int + n % 10) as char]
  }

  /** A date in the layout "2006-01-02". */
  function FormatDate(year: nat, month: nat, day: nat): string
    requires year < 10000 && month < 100 && day < 100
  {
    TwoDigits(year / 100) + TwoDigits(year % 100) + "-" + TwoDigits(month) + "-" + TwoDigits(day)
  }

  lemma NumberOfTwo(s: string)
    requires |s| == 2 && Digits(s)
    ensures Number(s) == 10 * (s[0] as int - '0' as int) + (s[1] as int - '0' as int) < 100
    ensures s == TwoDigits(Number(s))
  {
    assert s[..1][..0] == "" && s[..1][0] == s[0];
    assert Number(s[..1]) == s[0] as int - '0' as int;
  }

  lemma NumberOfFour(s: string)
    requires |s| == 4 && Digits(s)
    ensures Number(s) == 100 * Number(s[..2]) + Number(s[2..]) < 10000
  {
    NumberOfTwo(s[..2]);
    NumberOfTwo(s[2..]);
    assert s[..3][..2] == s[..2] && s[..3][2] == s[2];
  }

  lemma TwoDigitsRoundTrip(n: nat)
    requires n < 100
    ensures Digits(TwoDigits(n)) && Number(TwoDigits(n)) == n
  {
    NumberOfTwo(TwoDigits(n));
  }

  ghost predicate IsDay(s: string, year: nat, month: nat, day: nat) {
    && year < 10000 && 1 <= month <= 12 && 1 <= day <= DaysIn(month, year) && s == FormatDate(year, month, day)
  }

  lemma YearHasParts(y: string)
    requires |y| == 4 && Digits(y)
    ensures Number(y) < 10000 && TwoDigits(Number(y) / 100) == y[..2] && TwoDigits(Number(y) % 100) == y[2..]
  {
    NumberOfFour(y);
    NumberOfTwo(y[..2]);
    NumberOfTwo(y[2..]);
  }

  lemma Rejoin(s: string)
    requires |s| == 10 && s[4] == '-' && s[7] == '-'
    ensures s == s[..4][..2] + s[..4][2..] + "-" + s[5..7] + "-" + s[8..]
  {
  }

  lemma DateHasParts(s: string)
    requires ValidDate(s)
    ensures IsDay(s, Number(s[..4]), Number(s[5..7]), Number(s[8..]))
  {
    YearHasParts(s[..4]);
    NumberOfTwo(s[5..7]);
    NumberOfTwo(s[8..]);
    Rejoin(s);
  }

  lemma FormattedIsDate(year: nat, month: nat, day: nat)
    requires year < 10000 && month < 100 && day < 100
    ensures ValidDate(FormatDate(year, month, day)) <==> 1 <= month <= 12 && 1 <= day <= DaysIn(month, year)
  {
    var s := FormatDate(year, month, day);
    TwoDigitsRoundTrip(year / 100);
    TwoDigitsRoundTrip(year % 100);
    TwoDigitsRoundTrip(month);
    TwoDigitsRoundTrip(day);
    assert s[..4] == TwoDigits(year / 100) + TwoDigits(year % 100);
    assert s[..4][..2] == TwoDigits(year / 100) && s[..4][2..] == TwoDigits(year % 100);
    assert s[5..7] == TwoDigits(month) && s[8..] == TwoDigits(day);
    NumberOfFour(s[..4]);
  }

  /** A string is a valid date exactly when it is some day of the calendar in that layout, which is what the source checks. */
  lemma DateIsFormatted(s: string)
    ensures ValidDate(s) <==> exists year: nat, month: nat, day: nat :: IsDay(s, year, month, day)
  {
    if ValidDate(s) {
      DateHasParts(s);
    }
    forall year: nat, month: nat, day: nat | IsDay(s, year, month, day)
      ensures ValidDate(s)
    {
      FormattedIsDate(year, month, day);
    }
  }

  /** Four digits of the year, two of the month, two of the day. */
  lemma ConcreteDate()
    ensures FormatDate(2024, 2, 29) == "2024-02-29" && FormatDate(987, 12, 1) == "0987-12-01"
  {
    assert TwoDigits(20) == "20" && TwoDigits(24) == "24" && TwoDigits(2) == "02" && TwoDigits(29) == "29";
    assert TwoDigits(9) == "09" && TwoDigits(87) == "87" && TwoDigits(12) == "12" && TwoDigits(1) == "01";
  }

  // ---- Normal forms ----

  function NormalHeader(rules: TextRules, h: Header): Header {
    Header(rules.trim(h.batchKey), rules.trim(h.entryKey), rules.trim(h.transactionDate),
           rules.upper(rules.trim(h.currency)), rules.trim(h.memo))
  }

  function NormalLine(rules: TextRules, l: Line): Line {
    Line(rules.lower(rules.trim(l.side)), l.amount, rules.trim(l.accountId), rules.trim(l.taxCode),
         rules.trim(l.departmentId), rules.trim(l.subAccountId), rules.trim(l.partnerCode),
         rules.trim(l.description), rules.trim(l.invoiceKind))
  }

  /** `t` is `s` without the white space around it, with every rune replaced by what `f` maps it to. */
  ghost predicate IsMappedTrimOf(t: string, s: string, f: char -> char) {
    exists u :: IsTrimOf(u, s) && |t| == |u| && forall i :: 0 <= i < |u| ==> t[i] == f(u[i])
  }

  /** What Go's rules make of a line: every text trimmed, the side in lower case as well, the amount as it was. */
  lemma NormalLineIs(lower: char -> char, upper: char -> char, l: Line)
    ensures var n := NormalLine(GoRules(lower, upper), l);
            && n.amount == l.amount && IsMappedTrimOf(n.side, l.side, lower)
            && IsTrimOf(n.accountId, l.accountId) && IsTrimOf(n.taxCode, l.taxCode)
            && IsTrimOf(n.departmentId, l.departmentId) && IsTrimOf(n.subAccountId, l.subAccountId)
            && IsTrimOf(n.partnerCode, l.partnerCode) && IsTrimOf(n.description, l.description)
            && IsTrimOf(n.invoiceKind, l.invoiceKind)
  {
    var texts := [l.side, l.accountId, l.taxCode, l.departmentId, l.subAccountId, l.partnerCode, l.description, l.invoiceKind];
    TrimsAre(texts);
    assert IsTrimOf(TrimSpace(texts[0]), texts[0]) && IsTrimOf(TrimSpace(texts[1]), texts[1]);
    assert IsTrimOf(TrimSpace(texts[2]), texts[2]) && IsTrimOf(TrimSpace(texts[3]), texts[3]);
    assert IsTrimOf(TrimSpace(texts[4]), texts[4]) && IsTrimOf(TrimSpace(texts[5]), texts[5]);
    assert IsTrimOf(TrimSpace(texts[6]), texts[6]) && IsTrimOf(TrimSpace(texts[7]), texts[7]);
  }

  /** And of a header, where the currency is put in upper case. */
  lemma NormalHeaderIs(lower: char -> char, upper: char -> char, h: Header)
    ensures var n := NormalHeader(GoRules(lower, upper), h);
            && IsTrimOf(n.batchKey, h.batchKey) && IsTrimOf(n.entryKey, h.entryKey)
            && IsTrimOf(n.transactionDate, h.transactionDate) && IsMappedTrimOf(n.currency, h.currency, upper)
            && IsTrimOf(n.memo, h.memo)
  {
    var texts := [h.batchKey, h.entryKey, h.transactionDate, h.currency, h.memo];
    TrimsAre(texts);
    assert IsTrimOf(TrimSpace(texts[0]), texts[0]) && IsTrimOf(TrimSpace(texts[1]), texts[1]);
    assert IsTrimOf(TrimSpace(texts[2]), texts[2]) && IsTrimOf(TrimSpace(texts[3]), texts[3]);
    assert IsTrimOf(TrimSpace(texts[4]), texts[4]);
  }

  lemma TrimsAre(texts: seq<string>)
    ensures forall k :: 0 <= k < |texts| ==> IsTrimOf(TrimSpace(texts[k]), texts[k])
  {
    forall k | 0 <= k < |texts|
      ensures IsTrimOf(TrimSpace(texts[k]), texts[k])
    {
      TrimSpaceIs(texts[k]);
    }
  }

  function NormalLines(rules: TextRules, lines: seq<Line>): (r: seq<Line>)
    ensures |r| == |lines| && forall i :: 0 <= i < |r| ==> r[i] == NormalLine(rules, lines[i])
  {
    MapLines((l: Line) => NormalLine(rules, l), lines)
  }

  function MapLines(f: Line -> Line, lines: seq<Line>): (r: seq<Line>)
    ensures |r| == |lines| && forall i :: 0 <= i < |r| ==> r[i] == f(lines[i])
  {
    seq(|lines|, i requires 0 <= i < |lines| => f(lines[i]))
  }

  predicate WellFormed(l: Line) {
    && 1 <= l.amount
    && l.accountId != "" && l.taxCode != ""
    && (l.side == "debit" || l.side == "credit")
  }

  /** The exact sum, over the integers, of one side's amounts in the first `k` lines. What is not a debit is a credit. */
  function SideSum(lines: seq<Line>, k: nat, debit: bool): int
    requires k <= |lines|
  {
    if k == 0 then 0 else SideSum(lines, k - 1, debit) + Share(lines[k - 1], debit)
  }

  function Share(l: Line, debit: bool): int {
    if (l.side == "debit") == debit then l.amount as int else 0
  }

  function HeaderFault(h: Header, lineCount: nat): Option<Fault> {
    if h.batchKey == "" then Some(BatchKeyRequired)
    else if h.entryKey == "" then Some(EntryKeyRequired)
    else if !ValidDate(h.transactionDate) then Some(TransactionDateInvalid)
    else if h.currency != "JPY" then Some(CurrencyUnsupported)
    else if lineCount < 2 || 100 < lineCount then Some(LinesInvalid)
    else None
  }

  /** What an acceptable normalised entry is, in exact integer arithmetic. */
  predicate Acceptable(h: Header, lines: seq<Line>) {
    && HeaderFault(h, |lines|) == None
    && (forall k :: 0 <= k < |lines| ==> WellFormed(lines[k]))
    && 0 < SideSum(lines, |lines|, true) == SideSum(lines, |lines|, false) <= MAX_INT64
  }

  /** The header's faults in the order of their checks: the first check that fails is the one reported. */
  lemma FaultsInOrder(h: Header, lineCount: nat, i: nat)
    requires i < 5
    ensures var checks := [h.batchKey != "", h.entryKey != "", ValidDate(h.transactionDate), h.currency == "JPY", 2 <= lineCount <= 100];
            var faults := [BatchKeyRequired, EntryKeyRequired, TransactionDateInvalid, CurrencyUnsupported, LinesInvalid];
            HeaderFault(h, lineCount) == Some(faults[i]) <==> !checks[i] && forall j :: 0 <= j < i ==> checks[j]
  {
    var checks := [h.batchKey != "", h.entryKey != "", ValidDate(h.transactionDate), h.currency == "JPY", 2 <= lineCount <= 100];
    assert (forall j :: 0 <= j < i ==> checks[j])
      <==> && (0 < i ==> checks[0]) && (1 < i ==> checks[1]) && (2 < i ==> checks[2]) && (3 < i ==> checks[3]);
    assert i == 0 || i == 1 || i == 2 || i == 3 || i == 4;
  }

  ghost predicate IsComplete(l: Line) {
    l.side in {"debit", "credit"} && 0 < l.amount && 0 < |l.accountId| && 0 < |l.taxCode|
  }

  /** An acceptable entry, spelled out. That its total is positive follows. */
  lemma AcceptableIs(h: Header, lines: seq<Line>)
    ensures Acceptable(h, lines)
       <==> && h.batchKey != "" && h.entryKey != "" && h.currency == "JPY" && 2 <= |lines| <= 100
            && (exists year: nat, month: nat, day: nat :: IsDay(h.transactionDate, year, month, day))
            && (forall k :: 0 <= k < |lines| ==> IsComplete(lines[k]))
            && SideSum(lines, |lines|, true) == SideSum(lines, |lines|, false) <= MAX_INT64
  {
    DateIsFormatted(h.transactionDate);
    forall k | 0 <= k < |lines|
      ensures WellFormed(lines[k]) <==> IsComplete(lines[k])
    {
    }
    if lines != [] && forall k :: 0 <= k < |lines| ==> IsComplete(lines[k]) {
      assert forall k :: 0 <= k < |lines| ==> WellFormed(lines[k]);
      WellFormedIsPositive(lines);
    }
  }

  lemma WellFormedIsPositive(lines: seq<Line>)
    requires lines != [] && forall k :: 0 <= k < |lines| ==> WellFormed(lines[k])
    ensures 0 < SideSum(lines, |lines|, true) || 0 < SideSum(lines, |lines|, false)
  {
    var n := |lines| - 1;
    SideSumMonotone(lines, n, n, true);
    SideSumMonotone(lines, n, n, false);
    SideSumStep(lines, n);
  }

  /** Line `k` is well formed and its side's exact running sum still fits an int64. */
  predicate Fits(lines: seq<Line>, k: nat)
    requires k < |lines|
  {
    WellFormed(lines[k]) && SideSum(lines, k + 1, lines[k].side == "debit") <= MAX_INT64
  }

  /** The scan over the normalised lines stops at `k`, and for this reason. */
  predicate StopsAt(lines: seq<Line>, k: nat, fault: Fault) {
    && k < |lines|
    && (forall m: nat :: m < k ==> Fits(lines, m))
    && !Fits(lines, k)
    && fault == (if WellFormed(lines[k]) then AmountOverflow else LineInvalid)
  }

  lemma SideSumStep(lines: seq<Line>, k: nat)
    requires k < |lines|
    ensures SideSum(lines, k + 1, true) == SideSum(lines, k, true) + Share(lines[k], true)
    ensures SideSum(lines, k + 1, false) == SideSum(lines, k, false) + Share(lines[k], false)
  {
  }

  lemma {:induction false} SideSumMonotone(lines: seq<Line>, k: nat, m: nat, debit: bool)
    requires k <= m <= |lines|
    requires forall x :: 0 <= x < m ==> WellFormed(lines[x])
    ensures 0 <= SideSum(lines, k, debit) <= SideSum(lines, m, debit)
    decreases m
  {
    if k < m {
      SideSumMonotone(lines, k, m - 1, debit);
    } else if 0 < k {
      SideSumMonotone(lines, k - 1, k - 1, debit);
    }
  }

  /** Every prefix sum of an acceptable entry fits, so the running sums in `Validate` never reject it. */
  lemma AcceptableFits(h: Header, lines: seq<Line>)
    requires Acceptable(h, lines)
    ensures forall k: nat :: k < |lines| ==> Fits(lines, k)
  {
    forall k: nat | k < |lines|
      ensures Fits(lines, k)
    {
      SideSumMonotone(lines, k + 1, |lines|, lines[k].side == "debit");
    }
  }

  /** The scan leaves the slice normalised up to and including the line it stops at. */
  ghost predicate Stopped(n: seq<Line>, was: seq<Line>, now: seq<Line>, fault: Fault)
    requires |n| == |was|
  {
    exists k: nat :: StopsAt(n, k, fault) && now == n[..k + 1] + was[k + 1..]
  }

  /** What the scan reports, `was` being the slice before, `now` after, and `n` the normalised lines. */
  ghost predicate ScanOutcome(n: seq<Line>, was: seq<Line>, now: seq<Line>, fault: Option<Fault>)
    requires |n| == |was|
  {
    if fault.Some? && Stopped(n, was, now, fault.value) then true
    else
      && now == n && AllFit(n)
      && if fault.None? then 0 < SideSum(n, |n|, true) == SideSum(n, |n|, false) <= MAX_INT64
         else fault.value == Unbalanced && SideSum(n, |n|, true) != SideSum(n, |n|, false)
  }

  ghost predicate AllFit(n: seq<Line>) {
    forall k: nat :: k < |n| ==> Fits(n, k)
  }

  /** How a rejected entry leaves the caller's slice. */
  ghost predicate Rejection(h: Header, n: seq<Line>, was: seq<Line>, now: seq<Line>, fault: Fault)
    requires |n| == |was|
  {
    match HeaderFault(h, |n|)
    case Some(f) => fault == f && now == was
    case None => ScanOutcome(n, was, now, Some(fault))
  }

  /**
   * Accepts exactly the acceptable entries. The caller's slice is rewritten in place up to and including the line the
   * scan stops at, even when the entry is rejected, and not at all when the header is at fault.
   */
  method Validate(rules: TextRules, input: Entry) returns (r: Result<Entry, Fault>)
    modifies input.lines
    ensures r.Ok? <==> Acceptable(NormalHeader(rules, input.header), NormalLines(rules, old(input.lines[..])))
    ensures r.Ok? ==> r.value == Entry(NormalHeader(rules, input.header), input.lines)
    ensures r.Ok? ==> input.lines[..] == NormalLines(rules, old(input.lines[..]))
    ensures r.Err? ==> Rejection(NormalHeader(rules, input.header), NormalLines(rules, old(input.lines[..])),
                                 old(input.lines[..]), input.lines[..], r.error)
  {
    ghost var was := input.lines[..];
    var h := input.header;
    h := h.(batchKey := rules.trim(h.batchKey));
    h := h.(entryKey := rules.trim(h.entryKey));
    h := h.(transactionDate := rules.trim(h.transactionDate));
    h := h.(currency := rules.upper(rules.trim(h.currency)));
    h := h.(memo := rules.trim(h.memo));
    assert h == NormalHeader(rules, input.header);
    if h.batchKey == "" {
      return Err(BatchKeyRequired);
    }
    if h.entryKey == "" {
      return Err(EntryKeyRequired);
    }
    if !ValidDate(h.transactionDate) {
      return Err(TransactionDateInvalid);
    }
    if h.currency != "JPY" {
      return Err(CurrencyUnsupported);
    }
    if input.lines.Length < 2 || 100 < input.lines.Length {
      return Err(LinesInvalid);
    }
    var fault := ScanLines((l: Line) => NormalLine(rules, l), input.lines);
    ghost var n := NormalLines(rules, was);
    if fault.None? {
      FittingIsAcceptable(h, n);
      return Ok(Entry(h, input.lines));
    }
    RejectionIsRight(h, n, was, input.lines[..], fault.value);
    return Err(fault.value);
  }

  lemma FittingIsAcceptable(h: Header, n: seq<Line>)
    requires HeaderFault(h, |n|) == None && AllFit(n) && 0 < SideSum(n, |n|, true) == SideSum(n, |n|, false) <= MAX_INT64
    ensures Acceptable(h, n)
  {
    forall k | 0 <= k < |n|
      ensures WellFormed(n[k])
    {
      assert Fits(n, k);
    }
  }

  /** Both sums fit so far, and line `k` is malformed or overflows its side. */
  predicate IsFaulty(n: seq<Line>, k: nat, fault: Fault)
    requires k < |n|
  {
    && SideSum(n, k, true) <= MAX_INT64 && SideSum(n, k, false) <= MAX_INT64
    && if WellFormed(n[k]) then
         && fault == AmountOverflow
         && (MAX_INT64 < SideSum(n, k, true) + Share(n[k], true) || MAX_INT64 < SideSum(n, k, false) + Share(n[k], false))
       else fault == LineInvalid
  }

  lemma StopsHere(n: seq<Line>, was: seq<Line>, now: seq<Line>, k: nat, fault: Fault)
    requires k < |n| == |was| == |now|
    requires forall m: nat :: m < k ==> Fits(n, m)
    requires IsFaulty(n, k, fault)
    requires (forall m :: 0 <= m <= k ==> now[m] == n[m]) && (forall m :: k < m < |now| ==> now[m] == was[m])
    ensures Stopped(n, was, now, fault)
  {
    SliceJoin(n, was, now, k + 1);
    StopsHereWith(n, k, fault);
    StoppedAt(n, was, now, k, fault);
  }

  lemma StopsHereWith(n: seq<Line>, k: nat, fault: Fault)
    requires k < |n| && forall m: nat :: m < k ==> Fits(n, m)
    requires IsFaulty(n, k, fault)
    ensures StopsAt(n, k, fault)
  {
    DoesNotFit(n, k);
  }

  lemma StoppedAt(n: seq<Line>, was: seq<Line>, now: seq<Line>, k: nat, fault: Fault)
    requires |n| == |was| && StopsAt(n, k, fault) && now == n[..k + 1] + was[k + 1..]
    ensures Stopped(n, was, now, fault)
  {
  }

  lemma SliceJoin(n: seq<Line>, was: seq<Line>, now: seq<Line>, k: nat)
    requires k <= |n| == |was| == |now|
    requires (forall m :: 0 <= m < k ==> now[m] == n[m]) && (forall m :: k <= m < |now| ==> now[m] == was[m])
    ensures now == n[..k] + was[k..]
  {
  }

  lemma DoesNotFit(n: seq<Line>, k: nat)
    requires k < |n|
    requires SideSum(n, k, true) <= MAX_INT64 && SideSum(n, k, false) <= MAX_INT64
    requires WellFormed(n[k]) ==>
               MAX_INT64 < SideSum(n, k, true) + Share(n[k], true) || MAX_INT64 < SideSum(n, k, false) + Share(n[k], false)
    ensures !Fits(n, k)
  {
    SideSumStep(n, k);
  }

  /** A scan that reached the end, and its balance check. */
  lemma ScannedThrough(n: seq<Line>, was: seq<Line>, debit: int64, credit: int64)
    requires n != [] && |n| == |was| && forall m: nat :: m < |n| ==> Fits(n, m)
    requires 0 <= debit && debit as int == SideSum(n, |n|, true) && 0 <= credit && credit as int == SideSum(n, |n|, false)
    ensures ScanOutcome(n, was, n, if debit == 0 || credit == 0 || debit != credit then Some(Unbalanced) else None)
  {
    SomeSidePositive(n);
  }

  /** The line loop of `Validate` and the balance check after it. */
  method ScanLines(normal: Line -> Line, lines: array<Line>) returns (fault: Option<Fault>)
    requires lines.Length > 0
    modifies lines
    ensures ScanOutcome(MapLines(normal, old(lines[..])), old(lines[..]), lines[..], fault)
  {
    ghost var was := lines[..];
    ghost var n := MapLines(normal, was);
    var debit: int64, credit: int64 := 0, 0;
    var index := 0;
    while index < lines.Length
      invariant 0 <= index <= lines.Length
      invariant forall k :: 0 <= k < index ==> lines[k] == n[k]
      invariant forall k :: index <= k < lines.Length ==> lines[k] == was[k]
      invariant 0 <= debit && debit as int == SideSum(n, index, true)
      invariant 0 <= credit && credit as int == SideSum(n, index, false)
      invariant forall m: nat :: m < index ==> Fits(n, m)
    {
      lines[index] := normal(lines[index]);
      var line := lines[index];
      assert line == n[index];
      SideSumStep(n, index);
      var fault, debit', credit' := Accumulate(line, debit, credit);
      if fault.Some? {
        StopsHere(n, was, lines[..], index, fault.value);
        return fault;
      }
      debit, credit := debit', credit';
      index := index + 1;
    }
    assert lines[..] == n;
    ScannedThrough(n, was, debit, credit);
    if debit == 0 || credit == 0 || debit != credit {
      return Some(Unbalanced);
    }
    return None;
  }

  /** The checks on one normalised line, and its share of the running sums. */
  method Accumulate(line: Line, debit: int64, credit: int64) returns (fault: Option<Fault>, debit': int64, credit': int64)
    requires 0 <= debit && 0 <= credit
    ensures fault == if !WellFormed(line) then Some(LineInvalid)
                     else if MAX_INT64 < debit as int + Share(line, true) || MAX_INT64 < credit as int + Share(line, false)
                     then Some(AmountOverflow)
                     else None
    ensures fault == None ==>
              debit' as int == debit as int + Share(line, true) && credit' as int == credit as int + Share(line, false)
  {
    debit', credit' := debit, credit;
    if line.amount < 1 || line.accountId == "" || line.taxCode == "" || (line.side != "debit" && line.side != "credit") {
      return Some(LineInvalid), debit', credit';
    }
    if line.side == "debit" {
      if debit > 0x7fff_ffff_ffff_ffff - line.amount {
        return Some(AmountOverflow), debit', credit';
      }
      debit' := debit + line.amount;
    } else {
      if credit > 0x7fff_ffff_ffff_ffff - line.amount {
        return Some(AmountOverflow), debit', credit';
      }
      credit' := credit + line.amount;
    }
    return None, debit', credit';
  }

  lemma RejectionIsRight(h: Header, n: seq<Line>, was: seq<Line>, now: seq<Line>, fault: Fault)
    requires |n| == |was| && Rejection(h, n, was, now, fault)
    ensures !Acceptable(h, n)
  {
    if Acceptable(h, n) {
      AcceptableFits(h, n);
    }
  }

  /** A side that sums to zero is empty, and then the other side does not: so `debit == 0` implies unbalanced. */
  lemma SomeSidePositive(lines: seq<Line>)
    requires lines != [] && forall m: nat :: m < |lines| ==> Fits(lines, m)
    ensures 0 < SideSum(lines, |lines|, true) || 0 < SideSum(lines, |lines|, false)
  {
    forall m | 0 <= m < |lines|
      ensures WellFormed(lines[m])
    {
      assert Fits(lines, m);
    }
    WellFormedIsPositive(lines);
  }

  /** Normalising a normal form changes nothing. */
  lemma NormalFormIsFixed(rules: TextRules, h: Header, lines: seq<Line>)
    requires rules.Lawful()
    ensures NormalHeader(rules, NormalHeader(rules, h)) == NormalHeader(rules, h)
    ensures NormalLines(rules, NormalLines(rules, lines)) == NormalLines(rules, lines)
  {
  }

  /** Validating an accepted result again returns it unchanged and leaves its lines as they are. */
  method ValidateAgain(rules: TextRules, input: Entry) returns (first: Result<Entry, Fault>, second: Result<Entry, Fault>)
    requires rules.Lawful()
    modifies input.lines
    ensures first.Ok? <==> Acceptable(NormalHeader(rules, input.header), NormalLines(rules, old(input.lines[..])))
    ensures first.Ok? ==> second == first && input.lines[..] == NormalLines(rules, old(input.lines[..]))
  {
    NormalFormIsFixed(rules, input.header, input.lines[..]);
    first := Validate(rules, input);
    second := first;
    if first.Ok? {
      second := Validate(rules, first.value);
    }
  }
}
