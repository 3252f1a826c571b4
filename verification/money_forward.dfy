/**
 * The Money Forward payload (providers/accounting/money_forward/provider.go:113-154): a validated entry, paired and posted.
 * The lemmas carry conservation from the entry's lines through the branches to the posted values.
 */
module MoneyForward {
  import opened GoStrings
  import opened Journal
  import opened Pairing
  import opened AcceptedPairing

  datatype Json = Number(n: int64) | Text(s: string)

  /** A `map[string]any` of the payload. */
  type Object = map<string, Json>

  datatype PostedBranch = PostedBranch(debitor: Object, creditor: Object, remark: Option<string>)

  datatype Payload = Payload(transactionDate: string, journalType: string, memo: string, branches: seq<PostedBranch>)

  // ---- One line ----

  /** The optional field `key` is posted exactly when its trimmed value is not empty. */
  predicate PostsOptional(rules: TextRules, o: Object, key: string, value: string) {
    if rules.trim(value) == "" then key !in o else key in o && o[key] == Text(rules.trim(value))
  }

  const KEYS := {"value", "account_id", "tax_id", "department_id", "sub_account_id", "trade_partner_code", "invoice_kind"}

  predicate Posts(rules: TextRules, o: Object, l: Line) {
    && o.Keys <= KEYS
    && "value" in o && o["value"] == Number(l.amount)
    && "account_id" in o && o["account_id"] == Text(l.accountId)
    && "tax_id" in o && o["tax_id"] == Text(l.taxCode)
    && PostsOptional(rules, o, "department_id", l.departmentId)
    && PostsOptional(rules, o, "sub_account_id", l.subAccountId)
    && PostsOptional(rules, o, "trade_partner_code", l.partnerCode)
    && PostsOptional(rules, o, "invoice_kind", l.invoiceKind)
  }

  method Optional(rules: TextRules, target: Object, key: string, value: string) returns (result: Object)
    ensures result == if rules.trim(value) == "" then target else target[key := Text(rules.trim(value))]
  {
    result := target;
    var trimmed := rules.trim(value);
    if trimmed != "" {
      result := result[key := Text(trimmed)];
    }
  }

  method MoneyForwardLine(rules: TextRules, line: Line) returns (result: Object)
    ensures Posts(rules, result, line)
  {
    result := map["value" := Number(line.amount), "account_id" := Text(line.accountId), "tax_id" := Text(line.taxCode)];
    result := Optional(rules, result, "department_id", line.departmentId);
    result := Optional(rules, result, "sub_account_id", line.subAccountId);
    result := Optional(rules, result, "trade_partner_code", line.partnerCode);
    result := Optional(rules, result, "invoice_kind", line.invoiceKind);
  }

  function Field(o: Object, key: string): string {
    if key in o && o[key].Text? then o[key].s else ""
  }

  /** Reads a posted line back. Its side is given by where it is posted; the description goes to the remark instead. */
  function ReadBack(o: Object, side: string, description: string): Option<Line> {
    if "value" in o && o["value"].Number? then
      Some(Line(side, o["value"].n, Field(o, "account_id"), Field(o, "tax_id"), Field(o, "department_id"),
                Field(o, "sub_account_id"), Field(o, "trade_partner_code"), description, Field(o, "invoice_kind")))
    else None
  }

  /** Nothing but side and description is lost: a normalised line is recovered from what is posted for it. */
  lemma PostingLosesNothing(rules: TextRules, o: Object, l: Line)
    requires rules.Lawful() && Posts(rules, o, NormalLine(rules, l))
    ensures ReadBack(o, NormalLine(rules, l).side, NormalLine(rules, l).description) == Some(NormalLine(rules, l))
  {
    var n := NormalLine(rules, l);
    assert rules.trim(n.departmentId) == n.departmentId;
    assert rules.trim(n.subAccountId) == n.subAccountId;
    assert rules.trim(n.partnerCode) == n.partnerCode;
    assert rules.trim(n.invoiceKind) == n.invoiceKind;
  }

  // ---- Totals ----

  /** What the payload posts to one account on one side. */
  function PostedTotal(branches: seq<PostedBranch>, debit: bool, account: string): int {
    if branches == [] then 0
    else
      var o := if debit then branches[0].debitor else branches[0].creditor;
      (if Field(o, "account_id") == account && "value" in o && o["value"].Number? then o["value"].n as int else 0)
      + PostedTotal(branches[1..], debit, account)
  }

  /** What the entry's lines say about one account on one side. */
  function EntryTotal(lines: seq<Line>, debit: bool, account: string): int {
    if lines == [] then 0
    else
      var last := lines[|lines| - 1];
      EntryTotal(lines[..|lines| - 1], debit, account)
      + (if (last.side == "debit") == debit && last.accountId == account then last.amount as int else 0)
  }

  function BranchTotal(branches: seq<Branch>, debit: bool, account: string): int {
    if branches == [] then 0
    else
      var l := if debit then branches[0].debitor else branches[0].creditor;
      (if l.accountId == account then l.amount as int else 0) + BranchTotal(branches[1..], debit, account)
  }

  /** Every branch adds what it posts to the account on that side; every line adds what it says. */
  lemma {:induction false} TotalsAdd(posted: seq<PostedBranch>, b: PostedBranch, lines: seq<Line>, l: Line, debit: bool, account: string)
    requires var o := if debit then b.debitor else b.creditor; "value" in o && o["value"].Number? && "account_id" in o && o["account_id"].Text?
    ensures PostedTotal([], debit, account) == 0 && EntryTotal([], debit, account) == 0
    ensures var o := if debit then b.debitor else b.creditor;
            PostedTotal(posted + [b], debit, account)
            == PostedTotal(posted, debit, account) + (if o["account_id"].s == account then o["value"].n as int else 0)
    ensures EntryTotal(lines + [l], debit, account)
         == EntryTotal(lines, debit, account)
            + (if l.accountId == account && (if debit then l.side == "debit" else l.side != "debit") then l.amount as int else 0)
  {
    assert (lines + [l])[..|lines|] == lines;
    if posted == [] {
      assert [] + [b] == [b] && PostedTotal([b][1..], debit, account) == 0;
    } else {
      TotalsAdd(posted[1..], b, lines, l, debit, account);
      assert (posted + [b])[1..] == posted[1..] + [b];
    }
  }

  ghost predicate PostsAll(rules: TextRules, posted: seq<PostedBranch>, branches: seq<Branch>) {
    |posted| == |branches| && forall k :: 0 <= k < |posted| ==>
      Posts(rules, posted[k].debitor, branches[k].debitor) && Posts(rules, posted[k].creditor, branches[k].creditor)
  }

  lemma {:induction false} PostedIsBranchTotal(
      rules: TextRules, posted: seq<PostedBranch>, branches: seq<Branch>, debit: bool, account: string)
    requires PostsAll(rules, posted, branches)
    ensures PostedTotal(posted, debit, account) == BranchTotal(branches, debit, account)
  {
    if posted != [] {
      assert Posts(rules, posted[0].debitor, branches[0].debitor) && Posts(rules, posted[0].creditor, branches[0].creditor);
      PostedIsBranchTotal(rules, posted[1..], branches[1..], debit, account);
    }
  }

  lemma {:induction false} BranchIsMovedTotal(cells: seq<Cell>, debits: seq<Line>, credits: seq<Line>, debit: bool, account: string)
    requires InRange(cells, |debits|, |credits|)
    ensures BranchTotal(Branches(cells, debits, credits), debit, account)
         == Moved(cells, debit, OfAccount(if debit then debits else credits, account))
  {
    if cells != [] {
      BranchIsMovedTotal(cells[1..], debits, credits, debit, account);
      assert Branches(cells, debits, credits)[1..] == Branches(cells[1..], debits, credits);
    }
  }

  function OfAccount(lines: seq<Line>, account: string): nat -> bool {
    (k: nat) => k < |lines| && lines[k].accountId == account
  }

  function SelectedBefore(a: seq<int64>, i: nat, sel: nat -> bool): int
    requires i <= |a|
  {
    if i == 0 then 0 else SelectedBefore(a, i - 1, sel) + (if sel(i - 1) then a[i - 1] as int else 0)
  }

  lemma {:induction false} SelectedSplits(a: seq<int64>, i: nat, sel: nat -> bool)
    requires i <= |a|
    ensures SelectedBefore(a, i, sel) + Selected(a, i, sel) == Selected(a, 0, sel)
  {
    if i > 0 {
      SelectedSplits(a, i - 1, sel);
    }
  }

  lemma {:induction false} SelectedBeforeSame(
      a: seq<int64>, b: seq<int64>, i: nat, sel: nat -> bool, sel': nat -> bool)
    requires i <= |a| && i <= |b|
    requires forall k: nat :: k < i ==> a[k] == b[k] && sel(k) == sel'(k)
    ensures SelectedBefore(a, i, sel) == SelectedBefore(b, i, sel')
  {
    if i > 0 {
      SelectedBeforeSame(a, b, i - 1, sel, sel');
    }
  }

  lemma {:induction false} SideHasEntryTotal(lines: seq<Line>, debit: bool, account: string)
    ensures var side := Side(lines, debit);
            SelectedBefore(Amounts(side), |side|, OfAccount(side, account)) == EntryTotal(lines, debit, account)
  {
    if lines != [] {
      var init, last := lines[..|lines| - 1], lines[|lines| - 1];
      SideHasEntryTotal(init, debit, account);
      var shorter, side := Side(init, debit), Side(lines, debit);
      SelectedBeforeSame(Amounts(shorter), Amounts(side), |shorter|, OfAccount(shorter, account), OfAccount(side, account));
    }
  }

  // ---- Conservation ----

  /** Per account and side: whatever is posted for an accepted entry's branches totals what its lines say. */
  lemma PayloadIsConserved(rules: TextRules, h: Header, lines: seq<Line>, posted: seq<PostedBranch>, debit: bool, account: string)
    requires Acceptable(h, lines)
    requires InRange(WalkOf(lines).cells, |Side(lines, true)|, |Side(lines, false)|)
    requires PostsAll(rules, posted, Branches(WalkOf(lines).cells, Side(lines, true), Side(lines, false)))
    ensures PostedTotal(posted, debit, account) == EntryTotal(lines, debit, account)
  {
    AcceptedSides(h, lines);
    var debits, credits, cells := Side(lines, true), Side(lines, false), WalkOf(lines).cells;
    var D, C := Amounts(debits), Amounts(credits);
    var side := if debit then debits else credits;
    var sel := OfAccount(side, account);
    PostedIsBranchTotal(rules, posted, Branches(cells, debits, credits), debit, account);
    BranchIsMovedTotal(cells, debits, credits, debit, account);
    StartsMatched(D, C);
    WalkConserves(D, C, D, C, 0, 0, 0, sel);
    SelectedSplits(Amounts(side), |side|, sel);
    SideHasEntryTotal(lines, debit, account);
  }

  // ---- The operation ----

  /** The remark: both descriptions when they differ, else the one there is, else the entry's memo, else none. */
  function Remark(rules: TextRules, b: Branch, memo: string): Option<string> {
    var d, c := b.debitor.description, b.creditor.description;
    var joined := if c != "" && c != d then rules.trim(d + " / " + c) else d;
    var remark := if joined == "" then memo else joined;
    if remark == "" then None else Some(remark)
  }

  /** For normalised descriptions. A creditor's alone keeps the slash, since the empty debtor's is joined to it as well. */
  lemma RemarkIs(rules: TextRules, b: Branch, memo: string)
    requires rules.trim == TrimSpace && Trimmed(b.debitor.description) && Trimmed(b.creditor.description)
    ensures var d, c, r := b.debitor.description, b.creditor.description, Remark(rules, b, memo);
            && (d == "" && c == "" && memo == "" ==> r == None)
            && (d == "" && c == "" && memo != "" ==> r == Some(memo))
            && (d != "" && (c == "" || c == d) ==> r == Some(d))
            && (d == "" && c != "" ==> r == Some("/ " + c))
            && (d != "" && c != "" && c != d ==> r == Some(d + " / " + c))
  {
    var d, c := b.debitor.description, b.creditor.description;
    if c != "" && c != d {
      if d == "" {
        assert d + " / " + c == " " + ("/ " + c);
        assert TrimLeft("/ " + c) == "/ " + c && (" " + ("/ " + c))[1..] == "/ " + c;
        TrimmedIsFixed("/ " + c);
      } else {
        TrimmedIsFixed(d + " / " + c);
      }
    }
  }

  ghost predicate PostsAllWithRemarks(rules: TextRules, posted: seq<PostedBranch>, branches: seq<Branch>, memo: string) {
    PostsAll(rules, posted, branches)
    && forall k :: 0 <= k < |branches| ==> posted[k].remark == Remark(rules, branches[k], memo)
  }

  /** What is posted is the overlay of the entry's own lines. */
  ghost predicate PostsOverlay(rules: TextRules, posted: seq<PostedBranch>, lines: seq<Line>, memo: string) {
    exists paired :: IsOverlay(lines, paired) && PostsAllWithRemarks(rules, posted, paired, memo)
  }

  /** The loop over the paired branches. */
  method PostBranches(rules: TextRules, paired: seq<Branch>, memo: string) returns (branches: seq<PostedBranch>)
    ensures PostsAllWithRemarks(rules, branches, paired, memo)
  {
    branches := [];
    for k := 0 to |paired|
      invariant PostsAll(rules, branches, paired[..k])
      invariant forall m :: 0 <= m < k ==> branches[m].remark == Remark(rules, paired[m], memo)
    {
      var debitor := MoneyForwardLine(rules, paired[k].debitor);
      var creditor := MoneyForwardLine(rules, paired[k].creditor);
      var remark := paired[k].debitor.description;
      if paired[k].creditor.description != "" && paired[k].creditor.description != remark {
        remark := rules.trim(remark + " / " + paired[k].creditor.description);
      }
      if remark == "" {
        remark := memo;
      }
      branches := branches + [PostedBranch(debitor, creditor, if remark != "" then Some(remark) else None)];
    }
    assert paired[..|paired|] == paired;
  }

  /** From the operation's input to the payload handed to the transport. `input.lines` is the slice built for this call. */
  method CreateJournalEntry(rules: TextRules, input: Entry) returns (r: Result<Payload, Fault>)
    modifies input.lines
    ensures var h := NormalHeader(rules, input.header); var lines := NormalLines(rules, old(input.lines[..]));
            && (r.Ok? <==> Acceptable(h, lines))
            && (r.Ok? ==>
                  && r.value.transactionDate == h.transactionDate && r.value.memo == h.memo
                  && r.value.journalType == "journal_entry"
                  && PostsOverlay(rules, r.value.branches, lines, h.memo))
    ensures r.Ok? ==> forall debit, account ::
              PostedTotal(r.value.branches, debit, account) == EntryTotal(NormalLines(rules, old(input.lines[..])), debit, account)
  {
    var validated := Validate(rules, input);
    if validated.Err? {
      return Err(validated.error);
    }
    var entry := validated.value;
    ghost var lines := entry.lines[..];
    var paired := PairBranches(entry);
    var branches := PostBranches(rules, paired, entry.header.memo);
    assert IsOverlay(lines, paired) by {
      AcceptableIsPositive(entry.header, lines);
    }
    forall debit, account
      ensures PostedTotal(branches, debit, account) == EntryTotal(lines, debit, account)
    {
      PayloadIsConserved(rules, entry.header, lines, branches, debit, account);
    }
    return Ok(Payload(entry.header.transactionDate, "journal_entry", entry.header.memo, branches));
  }
}
