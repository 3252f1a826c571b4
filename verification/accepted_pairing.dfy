/**
 * Pairing a validated entry (internal/accounting/journal/journal.go:40-127): what `Validate` accepts is what the overlay,
 * counting and conservation lemmas about `PairBranches` ask for.
 */
module AcceptedPairing {
  import opened Journal
  import opened Pairing

  lemma {:induction false} SideIsPositive(lines: seq<Line>, debit: bool)
    requires forall k :: 0 <= k < |lines| ==> WellFormed(lines[k])
    ensures Positive(Amounts(Side(lines, debit)))
  {
    if lines != [] {
      var init, last := lines[..|lines| - 1], lines[|lines| - 1];
      SideIsPositive(init, debit);
      assert WellFormed(last);
      if (last.side == "debit") == debit {
        assert Amounts(Side(lines, debit)) == Amounts(Side(init, debit)) + [last.amount];
      } else {
        assert Side(lines, debit) == Side(init, debit);
      }
    }
  }

  lemma AcceptableIsPositive(h: Header, lines: seq<Line>)
    requires Acceptable(h, lines)
    ensures AllPositive(lines)
  {
    forall k | 0 <= k < |lines|
      ensures 1 <= lines[k].amount
    {
      assert WellFormed(lines[k]);
    }
  }

  /** What `Validate` guarantees is what the overlay and conservation lemmas ask for. */
  lemma AcceptedSides(h: Header, lines: seq<Line>)
    requires Acceptable(h, lines)
    ensures var D := Amounts(Side(lines, true)); var C := Amounts(Side(lines, false));
            Positive(D) && Positive(C) && 0 < Prefix(D, |D|) == Prefix(C, |C|)
  {
    SideIsPositive(lines, true);
    SideIsPositive(lines, false);
    SideHasSum(lines, |lines|, true);
    SideHasSum(lines, |lines|, false);
    assert lines[..|lines|] == lines;
  }

  /** Per line: the branches of one line of an accepted entry move exactly its amount. */
  lemma LineIsConserved(h: Header, lines: seq<Line>, debit: bool, x: nat)
    requires Acceptable(h, lines) && x < |Side(lines, debit)|
    ensures Moved(WalkOf(lines).cells, debit, OfLine(x)) == Side(lines, debit)[x].amount as int
  {
    AcceptedSides(h, lines);
    var D, C := Amounts(Side(lines, true)), Amounts(Side(lines, false));
    StartsMatched(D, C);
    WalkConserves(D, C, D, C, 0, 0, 0, OfLine(x));
    SelectedOne(if debit then D else C, 0, x);
  }

  function OfLine(x: nat): nat -> bool {
    (k: nat) => k == x
  }

  lemma {:induction false} SelectedOne(a: seq<int64>, i: nat, x: nat)
    requires i <= |a| && x < |a|
    ensures Selected(a, i, OfLine(x)) == if i <= x then a[x] as int else 0
    decreases |a| - i
  {
    if i < |a| {
      SelectedOne(a, i + 1, x);
    }
  }

  lemma {:induction false} SidesPartition(lines: seq<Line>)
    ensures |Side(lines, true)| + |Side(lines, false)| == |lines|
  {
    if lines != [] {
      SidesPartition(lines[..|lines| - 1]);
    }
  }

  /** A branch is its two lines with both amounts replaced by the same positive one. */
  ghost predicate IsBranchOf(b: Branch, c: Cell, debits: seq<Line>, credits: seq<Line>) {
    && c.debit < |debits| && c.credit < |credits| && 1 <= c.amount
    && b.debitor == debits[c.debit].(amount := c.amount) && b.creditor == credits[c.credit].(amount := c.amount)
  }

  /**
   * The branches of an accepted entry: one for each overlap of a debit's and a credit's interval, in order of both, with all
   * other fields of the two lines kept; fewer than there are lines; and nothing on either side is left over.
   */
  lemma AcceptedIsOverlaid(h: Header, lines: seq<Line>)
    requires Acceptable(h, lines)
    ensures var debits, credits, walk := Side(lines, true), Side(lines, false), WalkOf(lines);
            var D, C := Amounts(debits), Amounts(credits);
            && CellsAreOverlaps(D, C, walk.cells) && Increasing(walk.cells)
            && (forall x: nat, y: nat :: x < |debits| && y < |credits| ==>
                  (Start(D, C, x, y) < End(D, C, x, y) <==>
                     exists k :: 0 <= k < |walk.cells| && walk.cells[k].debit == x && walk.cells[k].credit == y))
            && |walk.cells| == |Ends(D) + Ends(C)| < |lines|
            && walk.debitEnd == |debits| && walk.creditEnd == |credits|
    ensures var debits, credits, cells := Side(lines, true), Side(lines, false), WalkOf(lines).cells;
            InRange(cells, |debits|, |credits|)
            && forall k :: 0 <= k < |cells| ==> IsBranchOf(Branches(cells, debits, credits)[k], cells[k], debits, credits)
  {
    AcceptedSides(h, lines);
    SidesPartition(lines);
    PairingIsOverlay(Amounts(Side(lines, true)), Amounts(Side(lines, false)));
    BranchCount(Amounts(Side(lines, true)), Amounts(Side(lines, false)));
  }

  /** And they are the overlay of the entry's own lines, in their order: the only one there is. */
  lemma AcceptedIsOverlay(h: Header, lines: seq<Line>, branches: seq<Branch>)
    requires Acceptable(h, lines)
    ensures InRange(WalkOf(lines).cells, |Side(lines, true)|, |Side(lines, false)|)
    ensures branches == Branches(WalkOf(lines).cells, Side(lines, true), Side(lines, false)) <==> IsOverlay(lines, branches)
  {
    AcceptableIsPositive(h, lines);
    WalkIsOverlay(lines);
    if IsOverlay(lines, branches) {
      OverlayIsUnique(lines, branches, Branches(WalkOf(lines).cells, Side(lines, true), Side(lines, false)));
    }
  }
}
