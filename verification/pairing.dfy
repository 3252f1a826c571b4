/**
 * `PairBranches` (internal/accounting/journal/journal.go:94-127): two cursors split the debits and the credits of an
 * entry into matched branches. The lemmas show that the branches are the overlay of two partitions of one interval.
 */
module Pairing {
  import opened Journal

  /** A branch by position: debit line, credit line, and the amount moved between them. */
  datatype Cell = Cell(debit: nat, credit: nat, amount: int64)

  /** The cells of a run of the loop, and where its cursors end. */
  datatype Walk = Walk(cells: seq<Cell>, debitEnd: nat, creditEnd: nat)

  /** int64 subtraction, wrapping around as the source's does. */
  function Minus(a: int64, b: int64): (r: int64)
    ensures a == b ==> r == 0
  {
    var x := a as int - b as int;
    if x < -0x8000_0000_0000_0000 then (x + 0x1_0000_0000_0000_0000) as int64
    else if 0x7fff_ffff_ffff_ffff < x then (x - 0x1_0000_0000_0000_0000) as int64
    else x as int64
  }

  /** It is the one int64 that differs from the difference by a multiple of 2^64. */
  lemma MinusWraps(a: int64, b: int64)
    ensures (Minus(a, b) as int - (a as int - b as int)) % 0x1_0000_0000_0000_0000 == 0
  {
  }

  function Amounts(lines: seq<Line>): (r: seq<int64>)
    ensures |r| == |lines| && forall i :: 0 <= i < |r| ==> r[i] == lines[i].amount
  {
    seq(|lines|, i requires 0 <= i < |lines| => lines[i].amount)
  }

  function Side(lines: seq<Line>, debit: bool): (r: seq<Line>)
  {
    if lines == [] then []
    else
      var last := lines[|lines| - 1];
      Side(lines[..|lines| - 1], debit) + (if (last.side == "debit") == debit then [last] else [])
  }

  function Lesser(a: int64, b: int64): (r: int64)
    ensures r <= a && r <= b && (r == a || r == b)
  {
    if b < a then b else a
  }

  /** The loop from cursors `i`, `j` on, over the amounts still unmatched. */
  function WalkFrom(ds: seq<int64>, cs: seq<int64>, i: nat, j: nat): Walk
    requires i <= |ds| && j <= |cs|
    decreases |ds| - i + |cs| - j
  {
    if i == |ds| || j == |cs| then Walk([], i, j)
    else
      var a := Lesser(ds[i], cs[j]);
      var d, c := Minus(ds[i], a), Minus(cs[j], a);
      var rest := WalkFrom(ds[i := d], cs[j := c], if d == 0 then i + 1 else i, if c == 0 then j + 1 else j);
      Walk([Cell(i, j, a)] + rest.cells, rest.debitEnd, rest.creditEnd)
  }

  function WalkOf(lines: seq<Line>): Walk {
    WalkFrom(Amounts(Side(lines, true)), Amounts(Side(lines, false)), 0, 0)
  }

  ghost predicate InRange(cells: seq<Cell>, m: nat, n: nat) {
    forall k :: 0 <= k < |cells| ==> cells[k].debit < m && cells[k].credit < n
  }

  function Branches(cells: seq<Cell>, debits: seq<Line>, credits: seq<Line>): (r: seq<Branch>)
    requires InRange(cells, |debits|, |credits|)
  {
    seq(|cells|, k requires 0 <= k < |cells| =>
      Branch(debits[cells[k].debit].(amount := cells[k].amount), credits[cells[k].credit].(amount := cells[k].amount)))
  }

  lemma WalkInRange(ds: seq<int64>, cs: seq<int64>, i: nat, j: nat)
    requires i <= |ds| && j <= |cs|
    ensures InRange(WalkFrom(ds, cs, i, j).cells, |ds|, |cs|)
    decreases |ds| - i + |cs| - j
  {
  }

  method SplitSides(lines: array<Line>) returns (debits: array<Line>, credits: array<Line>)
    ensures fresh(debits) && fresh(credits) && debits != credits
    ensures debits[..] == Side(lines[..], true) && credits[..] == Side(lines[..], false)
    ensures exists idx :: IsSelection(lines[..], true, idx, debits[..])
    ensures exists idx :: IsSelection(lines[..], false, idx, credits[..])
  {
    var ds, cs := [], [];
    for k := 0 to lines.Length
      invariant ds == Side(lines[..k], true) && cs == Side(lines[..k], false)
    {
      assert lines[..k + 1][..k] == lines[..k];
      if lines[k].side == "debit" {
        ds := ds + [lines[k]];
      } else {
        cs := cs + [lines[k]];
      }
    }
    assert lines[..lines.Length] == lines[..];
    var p := SideIsSelection(lines[..], true);
    var q := SideIsSelection(lines[..], false);
    debits := new Line[|ds|](k requires 0 <= k < |ds| => ds[k]);
    credits := new Line[|cs|](k requires 0 <= k < |cs| => cs[k]);
    assert debits[..] == ds && credits[..] == cs;
  }

  /**
   * Works on copies of the two sides and leaves the entry's own lines alone. An entry without lines makes the source ask
   * for a slice of negative capacity, which panics; hence the precondition.
   */
  method PairBranches(entry: Entry) returns (branches: seq<Branch>)
    requires entry.lines.Length > 0
    ensures AllPositive(entry.lines[..]) ==> IsOverlay(entry.lines[..], branches)
    ensures var debits := Side(entry.lines[..], true); var credits := Side(entry.lines[..], false);
            && InRange(WalkOf(entry.lines[..]).cells, |debits|, |credits|)
            && branches == Branches(WalkOf(entry.lines[..]).cells, debits, credits)
  {
    var debits, credits := SplitSides(entry.lines);
    branches := MatchSides(debits, credits);
    if AllPositive(entry.lines[..]) {
      WalkIsOverlay(entry.lines[..]);
    }
  }

  /** The loop of `PairBranches`, in place on the copies. */
  method MatchSides(debits: array<Line>, credits: array<Line>) returns (branches: seq<Branch>)
    requires debits != credits
    modifies debits, credits
    ensures var cells := WalkFrom(Amounts(old(debits[..])), Amounts(old(credits[..])), 0, 0).cells;
            && InRange(cells, debits.Length, credits.Length)
            && branches == Branches(cells, old(debits[..]), old(credits[..]))
  {
    ghost var debits0, credits0 := debits[..], credits[..];
    ghost var cells: seq<Cell> := [];
    ghost var ds, cs := Amounts(debits0), Amounts(credits0);
    ghost var walk := WalkFrom(ds, cs, 0, 0);
    WalkInRange(ds, cs, 0, 0);
    branches := [];
    var debitIndex, creditIndex := 0, 0;
    while debitIndex < debits.Length && creditIndex < credits.Length
      invariant debitIndex <= debits.Length == |debits0| && creditIndex <= credits.Length == |credits0|
      invariant SameButAmounts(debits[..], debits0, ds) && SameButAmounts(credits[..], credits0, cs)
      invariant Progress(walk, cells, ds, cs, debitIndex, creditIndex, debits0, credits0, branches)
      modifies debits, credits
      decreases debits.Length - debitIndex + credits.Length - creditIndex
    {
      ghost var c := Cell(debitIndex, creditIndex, Lesser(ds[debitIndex], cs[creditIndex]));
      ProgressStep(walk, cells, c, ds, cs, debits0, credits0, branches);
      SameButOne(debits[..], debits0, ds, debitIndex, Minus(ds[debitIndex], c.amount));
      SameButOne(credits[..], credits0, cs, creditIndex, Minus(cs[creditIndex], c.amount));
      var branch := MatchOne(debits, credits, debitIndex, creditIndex);
      branches := branches + [branch];
      cells := cells + [c];
      ds := ds[debitIndex := Minus(ds[debitIndex], c.amount)];
      cs := cs[creditIndex := Minus(cs[creditIndex], c.amount)];
      assert debits[debitIndex].amount == ds[debitIndex] && credits[creditIndex].amount == cs[creditIndex];
      if debits[debitIndex].amount == 0 {
        debitIndex := debitIndex + 1;
      }
      if credits[creditIndex].amount == 0 {
        creditIndex := creditIndex + 1;
      }
    }
  }

  /** The branches so far are those of `cells`, and what is left to walk completes the whole walk. */
  ghost predicate Progress(walk: Walk, cells: seq<Cell>, ds: seq<int64>, cs: seq<int64>, i: nat, j: nat,
                           debits: seq<Line>, credits: seq<Line>, branches: seq<Branch>) {
    && i <= |ds| == |debits| && j <= |cs| == |credits|
    && walk.cells == cells + WalkFrom(ds, cs, i, j).cells
    && InRange(cells, |debits|, |credits|) && branches == Branches(cells, debits, credits)
  }

  lemma ProgressStep(walk: Walk, cells: seq<Cell>, c: Cell, ds: seq<int64>, cs: seq<int64>,
                     debits: seq<Line>, credits: seq<Line>, branches: seq<Branch>)
    requires Progress(walk, cells, ds, cs, c.debit, c.credit, debits, credits, branches)
    requires c.debit < |ds| && c.credit < |cs| && c.amount == Lesser(ds[c.debit], cs[c.credit])
    ensures var d, k := Minus(ds[c.debit], c.amount), Minus(cs[c.credit], c.amount);
            var i, j := if d == 0 then c.debit + 1 else c.debit, if k == 0 then c.credit + 1 else c.credit;
            Progress(walk, cells + [c], ds[c.debit := d], cs[c.credit := k], i, j, debits, credits,
                     branches + [Branch(debits[c.debit].(amount := c.amount), credits[c.credit].(amount := c.amount))])
  {
    CellTaken(cells, c, ds, cs, debits, credits);
  }

  /** Emits the branch for two lines and takes its amount off both copies. */
  method MatchOne(debits: array<Line>, credits: array<Line>, i: nat, j: nat) returns (branch: Branch)
    requires debits != credits && i < debits.Length && j < credits.Length
    modifies debits, credits
    ensures var d, c := old(debits[i]), old(credits[j]); var amount := Lesser(d.amount, c.amount);
            && branch == Branch(d.(amount := amount), c.(amount := amount))
            && debits[..] == old(debits[..])[i := d.(amount := Minus(d.amount, amount))]
            && credits[..] == old(credits[..])[j := c.(amount := Minus(c.amount, amount))]
  {
    var amount := debits[i].amount;
    if credits[j].amount < amount {
      amount := credits[j].amount;
    }
    var debit, credit := debits[i], credits[j];
    debit, credit := debit.(amount := amount), credit.(amount := amount);
    branch := Branch(debit, credit);
    debits[i] := debits[i].(amount := Minus(debits[i].amount, amount));
    credits[j] := credits[j].(amount := Minus(credits[j].amount, amount));
  }

  ghost predicate SameButAmounts(now: seq<Line>, was: seq<Line>, amounts: seq<int64>) {
    |now| == |was| == |amounts| && forall k :: 0 <= k < |now| ==> now[k] == was[k].(amount := amounts[k])
  }

  lemma SameButOne(now: seq<Line>, was: seq<Line>, amounts: seq<int64>, i: nat, amount: int64)
    requires SameButAmounts(now, was, amounts) && i < |now|
    ensures SameButAmounts(now[i := now[i].(amount := amount)], was, amounts[i := amount])
  {
  }

  /** One round of the loop, seen from its cells. */
  lemma CellTaken(cells: seq<Cell>, c: Cell, ds: seq<int64>, cs: seq<int64>, debits: seq<Line>, credits: seq<Line>)
    requires |ds| == |debits| && |cs| == |credits| && c.debit < |ds| && c.credit < |cs|
    requires InRange(cells, |debits|, |credits|)
    requires c.amount == Lesser(ds[c.debit], cs[c.credit])
    ensures InRange(cells + [c], |debits|, |credits|)
    ensures Branches(cells + [c], debits, credits)
         == Branches(cells, debits, credits)
            + [Branch(debits[c.debit].(amount := c.amount), credits[c.credit].(amount := c.amount))]
    ensures var d, k := Minus(ds[c.debit], c.amount), Minus(cs[c.credit], c.amount);
            var i, j := if d == 0 then c.debit + 1 else c.debit, if k == 0 then c.credit + 1 else c.credit;
            (cells + WalkFrom(ds, cs, c.debit, c.credit).cells
             == cells + [c] + WalkFrom(ds[c.debit := d], cs[c.credit := k], i, j).cells)
  {
    WalkStep(ds, cs, c.debit, c.credit);
    BranchesAppend(cells, c, debits, credits);
    var d, k := Minus(ds[c.debit], c.amount), Minus(cs[c.credit], c.amount);
    var i, j := if d == 0 then c.debit + 1 else c.debit, if k == 0 then c.credit + 1 else c.credit;
    Associate(cells, c, WalkFrom(ds[c.debit := d], cs[c.credit := k], i, j).cells);
  }

  lemma Associate(a: seq<Cell>, c: Cell, b: seq<Cell>)
    ensures a + ([c] + b) == a + [c] + b
  {
  }

  lemma BranchesAppend(cells: seq<Cell>, c: Cell, debits: seq<Line>, credits: seq<Line>)
    requires InRange(cells, |debits|, |credits|) && c.debit < |debits| && c.credit < |credits|
    ensures InRange(cells + [c], |debits|, |credits|)
    ensures Branches(cells + [c], debits, credits)
         == Branches(cells, debits, credits)
            + [Branch(debits[c.debit].(amount := c.amount), credits[c.credit].(amount := c.amount))]
  {
  }

  lemma WalkStep(ds: seq<int64>, cs: seq<int64>, i: nat, j: nat)
    requires i < |ds| && j < |cs|
    ensures var a := Lesser(ds[i], cs[j]);
            var d, c := Minus(ds[i], a), Minus(cs[j], a);
            var rest := WalkFrom(ds[i := d], cs[j := c], if d == 0 then i + 1 else i, if c == 0 then j + 1 else j);
            WalkFrom(ds, cs, i, j) == Walk([Cell(i, j, a)] + rest.cells, rest.debitEnd, rest.creditEnd)
  {
  }

  // ---- The overlay of two partitions ----

  function Prefix(a: seq<int64>, k: nat): int
    requires k <= |a|
  {
    if k == 0 then 0 else Prefix(a, k - 1) + a[k - 1] as int
  }

  predicate Positive(a: seq<int64>) {
    forall k :: 0 <= k < |a| ==> 1 <= a[k]
  }

  function Max(x: int, y: int): int { if x < y then y else x }

  function Min(x: int, y: int): int { if x < y then x else y }

  /** Where the overlap of debit `i` and credit `j` starts and ends when both sides are laid end to end from 0. */
  function Start(D: seq<int64>, C: seq<int64>, i: nat, j: nat): int
    requires i < |D| && j < |C|
  {
    Max(Prefix(D, i), Prefix(C, j))
  }

  function End(D: seq<int64>, C: seq<int64>, i: nat, j: nat): int
    requires i < |D| && j < |C|
  {
    Min(Prefix(D, i + 1), Prefix(C, j + 1))
  }

  /** Every cell is a nonempty overlap, its amount is the overlap's length, and consecutive cells touch. */
  ghost predicate CellsAreOverlaps(D: seq<int64>, C: seq<int64>, cells: seq<Cell>) {
    && InRange(cells, |D|, |C|)
    && (forall k :: 0 <= k < |cells| ==>
          var c := cells[k]; Start(D, C, c.debit, c.credit) < End(D, C, c.debit, c.credit)
                             && c.amount as int == End(D, C, c.debit, c.credit) - Start(D, C, c.debit, c.credit))
    && (forall k :: 0 < k < |cells| ==>
          Start(D, C, cells[k].debit, cells[k].credit) == End(D, C, cells[k - 1].debit, cells[k - 1].credit))
  }

  /** Both indices never go back, and at least one advances: so no pair occurs twice. */
  ghost predicate Increasing(cells: seq<Cell>) {
    forall k, l :: 0 <= k < l < |cells| ==>
      && cells[k].debit <= cells[l].debit && cells[k].credit <= cells[l].credit
      && cells[k].debit + cells[k].credit < cells[l].debit + cells[l].credit
  }

  /** One side of the loop's state: `t` has been matched so far, and the unmatched amounts are what is left beyond `t`. */
  ghost predicate Matched(D: seq<int64>, ds: seq<int64>, i: nat, t: int) {
    && |ds| == |D| && i <= |D| && Positive(D)
    && Prefix(D, i) <= t
    && (if i < |D| then t < Prefix(D, i + 1) && ds[i] as int == Prefix(D, i + 1) - t else t == Prefix(D, i))
    && (forall k :: i < k < |D| ==> ds[k] == D[k])
  }

  /** The loop's state: the matched part ends where the later of the two current intervals starts. */
  ghost predicate State(D: seq<int64>, C: seq<int64>, ds: seq<int64>, cs: seq<int64>, i: nat, j: nat, t: int) {
    Matched(D, ds, i, t) && Matched(C, cs, j, t) && t == Max(Prefix(D, i), Prefix(C, j))
  }

  lemma Advance(D: seq<int64>, ds: seq<int64>, i: nat, t: int, amount: int64)
    requires Matched(D, ds, i, t) && i < |D| && 1 <= amount <= ds[i]
    ensures var d := Minus(ds[i], amount);
            && d == ds[i] - amount
            && Matched(D, ds[i := d], if d == 0 then i + 1 else i, t + amount as int)
            && (d == 0 ==> Prefix(D, i + 1) == t + amount as int)
  {
    if ds[i] == amount && i + 1 < |D| {
      assert Prefix(D, i + 2) == Prefix(D, i + 1) + D[i + 1] as int;
    }
  }

  /** One round: it emits the overlap of the two current intervals and moves past whichever ends there. */
  lemma Round(D: seq<int64>, C: seq<int64>, ds: seq<int64>, cs: seq<int64>, i: nat, j: nat, t: int)
      returns (ds': seq<int64>, cs': seq<int64>, i': nat, j': nat, c: Cell)
    requires State(D, C, ds, cs, i, j, t) && i < |D| && j < |C|
    ensures c.debit == i && c.credit == j && c.amount as int == End(D, C, i, j) - t && Start(D, C, i, j) == t < End(D, C, i, j)
    ensures i <= i' <= i + 1 && j <= j' <= j + 1 && i + j < i' + j' && i' <= |D| && j' <= |C|
    ensures i' == i + 1 <==> Prefix(D, i + 1) == End(D, C, i, j)
    ensures j' == j + 1 <==> Prefix(C, j + 1) == End(D, C, i, j)
    ensures State(D, C, ds', cs', i', j', End(D, C, i, j))
    ensures var rest := WalkFrom(ds', cs', i', j');
            WalkFrom(ds, cs, i, j) == Walk([c] + rest.cells, rest.debitEnd, rest.creditEnd)
  {
    var a := Lesser(ds[i], cs[j]);
    Advance(D, ds, i, t, a);
    Advance(C, cs, j, t, a);
    var d, k := Minus(ds[i], a), Minus(cs[j], a);
    WalkStep(ds, cs, i, j);
    ds', cs', c := ds[i := d], cs[j := k], Cell(i, j, a);
    i', j' := if d == 0 then i + 1 else i, if k == 0 then j + 1 else j;
  }

  lemma {:induction false} PrefixIncreasing(a: seq<int64>, x: nat, y: nat)
    requires Positive(a) && x <= y <= |a|
    ensures Prefix(a, x) <= Prefix(a, y)
    ensures x < y ==> Prefix(a, x) < Prefix(a, y)
  {
    if x < y {
      PrefixIncreasing(a, x, y - 1);
    }
  }

  /** The cells that follow cell (i, j), which starts at `t`. */
  ghost predicate Follow(D: seq<int64>, C: seq<int64>, cells: seq<Cell>, i: nat, j: nat, t: int) {
    && CellsAreOverlaps(D, C, cells) && Increasing(cells)
    && (forall k :: 0 <= k < |cells| ==> i <= cells[k].debit && j <= cells[k].credit)
    && (cells != [] ==> cells[0].debit == i && cells[0].credit == j && Start(D, C, i, j) == t)
  }

  lemma FollowCons(D: seq<int64>, C: seq<int64>, i: nat, j: nat, c: Cell, i': nat, j': nat, rest: seq<Cell>)
    requires i < |D| && j < |C| && c.debit == i && c.credit == j
    requires Start(D, C, i, j) < End(D, C, i, j) && c.amount as int == End(D, C, i, j) - Start(D, C, i, j)
    requires i <= i' && j <= j' && i + j < i' + j'
    requires Follow(D, C, rest, i', j', End(D, C, i, j))
    ensures Follow(D, C, [c] + rest, i, j, Start(D, C, i, j))
  {
    var cells := [c] + rest;
    forall k | 0 < k < |cells|
      ensures cells[k] == rest[k - 1] && i <= cells[k].debit && j <= cells[k].credit && i + j < cells[k].debit + cells[k].credit
    {
    }
    assert Increasing(cells);
    assert CellsAreOverlaps(D, C, cells);
  }

  lemma {:induction false} WalkCells(D: seq<int64>, C: seq<int64>, ds: seq<int64>, cs: seq<int64>, i: nat, j: nat, t: int)
    requires State(D, C, ds, cs, i, j, t)
    ensures Follow(D, C, WalkFrom(ds, cs, i, j).cells, i, j, t)
    decreases |D| - i + |C| - j
  {
    if i < |D| && j < |C| {
      var ds', cs', i', j', c := Round(D, C, ds, cs, i, j, t);
      WalkCells(D, C, ds', cs', i', j', End(D, C, i, j));
      FollowCons(D, C, i, j, c, i', j', WalkFrom(ds', cs', i', j').cells);
    }
  }

  /** Where a run ends: at the end of both sides when they are equally long, and of the shorter one otherwise. */
  lemma {:induction false} WalkEnds(D: seq<int64>, C: seq<int64>, ds: seq<int64>, cs: seq<int64>, i: nat, j: nat, t: int)
    requires State(D, C, ds, cs, i, j, t)
    ensures var w := WalkFrom(ds, cs, i, j);
            && w.debitEnd <= |D| && w.creditEnd <= |C|
            && (w.debitEnd == |D| <==> Prefix(D, |D|) <= Prefix(C, |C|))
            && (w.creditEnd == |C| <==> Prefix(C, |C|) <= Prefix(D, |D|))
    decreases |D| - i + |C| - j
  {
    if i < |D| && j < |C| {
      var ds', cs', i', j', c := Round(D, C, ds, cs, i, j, t);
      WalkEnds(D, C, ds', cs', i', j', End(D, C, i, j));
    } else {
      PrefixIncreasing(D, if i < |D| then i + 1 else i, |D|);
      PrefixIncreasing(C, if j < |C| then j + 1 else j, |C|);
    }
  }

  /** Every overlap that ends beyond `t` is met by the rest of the run. */
  lemma {:induction false} WalkCovers(
      D: seq<int64>, C: seq<int64>, ds: seq<int64>, cs: seq<int64>, i: nat, j: nat, t: int, x: nat, y: nat) returns (k: nat)
    requires State(D, C, ds, cs, i, j, t)
    requires x < |D| && y < |C| && Start(D, C, x, y) < End(D, C, x, y) && t < End(D, C, x, y)
    ensures var cells := WalkFrom(ds, cs, i, j).cells; k < |cells| && cells[k].debit == x && cells[k].credit == y
    decreases |D| - i + |C| - j
  {
    EndsLater(D, i, x, t);
    EndsLater(C, j, y, t);
    var ds', cs', i', j', c := Round(D, C, ds, cs, i, j, t);
    if x == i && y == j {
      k := 0;
    } else {
      PrefixIncreasing(D, if x == i then i else i + 1, x);
      PrefixIncreasing(C, if y == j then j else j + 1, y);
      PrefixIncreasing(D, x, x + 1);
      PrefixIncreasing(C, y, y + 1);
      k := WalkCovers(D, C, ds', cs', i', j', End(D, C, i, j), x, y);
      k := k + 1;
    }
  }

  lemma EndsLater(a: seq<int64>, i: nat, x: nat, t: int)
    requires Positive(a) && i <= |a| && x < |a| && Prefix(a, i) <= t < Prefix(a, x + 1)
    ensures i <= x
  {
    if x + 1 <= i {
      PrefixIncreasing(a, x + 1, i);
    }
  }

  /**
   * The overlay theorem. For sides of positive amounts, the branch for debit `x` and credit `y` exists exactly when their
   * intervals overlap, is unique, and moves the length of the overlap; branches come in increasing order of both indices.
   */
  lemma PairingIsOverlay(D: seq<int64>, C: seq<int64>)
    requires Positive(D) && Positive(C)
    ensures var cells := WalkFrom(D, C, 0, 0).cells;
            && CellsAreOverlaps(D, C, cells)
            && Increasing(cells)
            && (forall x: nat, y: nat :: x < |D| && y < |C| ==>
                  (Start(D, C, x, y) < End(D, C, x, y) <==> exists k :: 0 <= k < |cells| && cells[k].debit == x && cells[k].credit == y))
  {
    StartsMatched(D, C);
    WalkCells(D, C, D, C, 0, 0, 0);
    var cells := WalkFrom(D, C, 0, 0).cells;
    forall x: nat, y: nat | x < |D| && y < |C| && Start(D, C, x, y) < End(D, C, x, y)
      ensures exists k :: 0 <= k < |cells| && cells[k].debit == x && cells[k].credit == y
    {
      PrefixIncreasing(D, 0, x);
      var k := WalkCovers(D, C, D, C, 0, 0, 0, x, y);
    }
  }

  lemma StartsMatched(D: seq<int64>, C: seq<int64>)
    requires Positive(D) && Positive(C)
    ensures Matched(D, D, 0, 0) && Matched(C, C, 0, 0)
  {
    if 0 < |D| {
      assert Prefix(D, 1) == Prefix(D, 0) + D[0] as int;
    }
    if 0 < |C| {
      assert Prefix(C, 1) == Prefix(C, 0) + C[0] as int;
    }
  }

  // ---- On the entry's own lines ----

  predicate IsOn(l: Line, debit: bool) {
    if debit then l.side == "debit" else l.side != "debit"
  }

  /** `idx` are the positions of one side's lines, in order and none left out, and `side` is what stands there. */
  ghost predicate IsSelection(lines: seq<Line>, debit: bool, idx: seq<nat>, side: seq<Line>) {
    && |idx| == |side|
    && (forall k :: 0 <= k < |idx| ==> idx[k] < |lines| && IsOn(lines[idx[k]], debit) && side[k] == lines[idx[k]])
    && (forall k, l :: 0 <= k < l < |idx| ==> idx[k] < idx[l])
    && (forall i: nat :: i < |lines| && IsOn(lines[i], debit) ==> i in idx)
  }

  lemma {:induction false} SideSumSame(a: seq<Line>, b: seq<Line>, k: nat, debit: bool)
    requires k <= |a| && a <= b
    ensures SideSum(a, k, debit) == SideSum(b, k, debit)
  {
    if k > 0 {
      SideSumSame(a, b, k - 1, debit);
    }
  }

  ghost predicate SumsAgree(lines: seq<Line>, debit: bool, idx: seq<nat>, a: seq<int64>) {
    |idx| <= |a| && forall x :: 0 <= x < |idx| ==> idx[x] <= |lines| && Prefix(a, x) == SideSum(lines, idx[x], debit)
  }

  lemma {:induction false} SideHasSum(lines: seq<Line>, k: nat, debit: bool)
    requires k <= |lines|
    ensures var a := Amounts(Side(lines[..k], debit)); Prefix(a, |a|) == SideSum(lines, k, debit)
  {
    if k > 0 {
      SideHasSum(lines, k - 1, debit);
      assert lines[..k][..k - 1] == lines[..k - 1];
      var shorter, side := Amounts(Side(lines[..k - 1], debit)), Amounts(Side(lines[..k], debit));
      if (lines[k - 1].side == "debit") == debit {
        assert side == shorter + [lines[k - 1].amount];
        PrefixSame(shorter, side, |shorter|);
      } else {
        assert side == shorter;
      }
    }
  }

  lemma {:induction false} PrefixSame(a: seq<int64>, b: seq<int64>, k: nat)
    requires k <= |a| && k <= |b| && a[..k] == b[..k]
    ensures Prefix(a, k) == Prefix(b, k)
  {
    if k > 0 {
      assert a[..k - 1] == a[..k][..k - 1] && b[..k - 1] == b[..k][..k - 1] && a[k - 1] == a[..k][k - 1] == b[k - 1];
      PrefixSame(a, b, k - 1);
    }
  }

  lemma KeepsAgreeing(lines: seq<Line>, debit: bool, idx: seq<nat>, a: seq<int64>, b: seq<int64>)
    requires lines != [] && SumsAgree(lines[..|lines| - 1], debit, idx, a) && a <= b
    ensures SumsAgree(lines, debit, idx, b)
  {
    forall x | 0 <= x < |idx|
      ensures Prefix(b, x) == SideSum(lines, idx[x], debit)
    {
      PrefixSame(a, b, x);
      SideSumSame(lines[..|lines| - 1], lines, idx[x], debit);
    }
  }

  lemma AgreesOnOneMore(lines: seq<Line>, debit: bool, idx: seq<nat>, a: seq<int64>, i: nat)
    requires SumsAgree(lines, debit, idx, a) && |idx| < |a| && i <= |lines| && Prefix(a, |idx|) == SideSum(lines, i, debit)
    ensures SumsAgree(lines, debit, idx + [i], a)
  {
  }

  lemma SideOfOneMore(init: seq<Line>, last: Line, debit: bool)
    ensures Side(init + [last], debit) == Side(init, debit) + (if IsOn(last, debit) then [last] else [])
  {
    assert (init + [last])[..|init|] == init;
  }

  /** The positions of a side's lines, and what the entry has before each. */
  ghost predicate Selects(lines: seq<Line>, debit: bool, idx: seq<nat>, side: seq<Line>) {
    IsSelection(lines, debit, idx, side) && SumsAgree(lines, debit, idx, Amounts(side))
  }

  lemma SelectOneMore(init: seq<Line>, last: Line, debit: bool, idx: seq<nat>, shorter: seq<Line>, side: seq<Line>)
      returns (longer: seq<nat>)
    requires Selects(init, debit, idx, shorter)
    requires side == shorter + (if IsOn(last, debit) then [last] else [])
    requires Prefix(Amounts(shorter), |shorter|) == SideSum(init, |init|, debit)
    ensures Selects(init + [last], debit, longer, side)
  {
    var lines, a, b := init + [last], Amounts(shorter), Amounts(side);
    assert a <= b;
    assert lines[..|lines| - 1] == init;
    KeepsAgreeing(lines, debit, idx, a, b);
    SelectionAppend(init, last, debit, idx, shorter);
    if IsOn(last, debit) {
      PrefixSame(a, b, |idx|);
      SideSumSame(init, lines, |init|, debit);
      AgreesOnOneMore(lines, debit, idx, b, |init|);
      longer := idx + [|init|];
    } else {
      longer := idx;
    }
  }

  lemma SideOfOneMoreSelects(init: seq<Line>, last: Line, debit: bool, idx: seq<nat>) returns (longer: seq<nat>)
    requires Selects(init, debit, idx, Side(init, debit))
    ensures Selects(init + [last], debit, longer, Side(init + [last], debit))
  {
    SideOfOneMore(init, last, debit);
    SideHasSum(init, |init|, debit);
    assert init[..|init|] == init;
    longer := SelectOneMore(init, last, debit, idx, Side(init, debit), Side(init + [last], debit));
  }

  /** `splitSides` keeps the order of the lines and drops none; what precedes a line on its side is what the entry has before it. */
  lemma {:induction false} SideIsSelection(lines: seq<Line>, debit: bool) returns (idx: seq<nat>)
    ensures Selects(lines, debit, idx, Side(lines, debit))
  {
    if lines == [] {
      idx := [];
    } else {
      var init, last := lines[..|lines| - 1], lines[|lines| - 1];
      assert lines == init + [last];
      var before := SideIsSelection(init, debit);
      idx := SideOfOneMoreSelects(init, last, debit, before);
    }
  }

  lemma SelectionAppend(init: seq<Line>, last: Line, debit: bool, idx: seq<nat>, side: seq<Line>)
    requires IsSelection(init, debit, idx, side)
    ensures if IsOn(last, debit) then IsSelection(init + [last], debit, idx + [|init|], side + [last])
            else IsSelection(init + [last], debit, idx, side + [])
  {
    var lines, all := init + [last], idx + [|init|];
    assert side + [] == side;
    forall i: nat | i < |lines| && IsOn(lines[i], debit)
      ensures i in if IsOn(last, debit) then all else idx
    {
      if i < |init| {
        assert i in idx;
      } else {
        assert all[|idx|] == i;
      }
    }
  }

  /** Where debit line `i` and credit line `j` overlap when the lines of each side are laid end to end from 0. */
  function From(lines: seq<Line>, i: nat, j: nat): int
    requires i < |lines| && j < |lines|
  {
    Max(SideSum(lines, i, true), SideSum(lines, j, false))
  }

  function To(lines: seq<Line>, i: nat, j: nat): int
    requires i < |lines| && j < |lines|
  {
    Min(SideSum(lines, i + 1, true), SideSum(lines, j + 1, false))
  }

  ghost predicate Meet(lines: seq<Line>, i: nat, j: nat) {
    i < |lines| && j < |lines| && lines[i].side == "debit" && lines[j].side != "debit" && From(lines, i, j) < To(lines, i, j)
  }

  /** The lines `i` and `j` of the entry, with the length of their overlap as both amounts. */
  ghost predicate IsOverlap(lines: seq<Line>, i: nat, j: nat, b: Branch) {
    && Meet(lines, i, j)
    && b.debitor.amount as int == To(lines, i, j) - From(lines, i, j) && b.creditor.amount == b.debitor.amount
    && b.debitor.(amount := 0) == lines[i].(amount := 0) && b.creditor.(amount := 0) == lines[j].(amount := 0)
  }

  /** `at` says which lines each branch is for: every pair that meets, once, in increasing order of both lines. */
  ghost predicate Overlays(lines: seq<Line>, at: seq<(nat, nat)>, branches: seq<Branch>) {
    && |at| == |branches|
    && (forall k :: 0 <= k < |at| ==> IsOverlap(lines, at[k].0, at[k].1, branches[k]))
    && (forall k, l :: 0 <= k < l < |at| ==> at[k].0 <= at[l].0 && at[k].1 <= at[l].1 && at[k].0 + at[k].1 < at[l].0 + at[l].1)
    && (forall i: nat, j: nat :: Meet(lines, i, j) ==> (i, j) in at)
  }

  ghost predicate IsOverlay(lines: seq<Line>, branches: seq<Branch>) {
    exists at :: Overlays(lines, at, branches)
  }

  lemma OneSideEnds(lines: seq<Line>, debit: bool, idx: seq<nat>, side: seq<Line>, x: nat)
    requires Selects(lines, debit, idx, side) && x < |idx|
    ensures Prefix(Amounts(side), x) == SideSum(lines, idx[x], debit)
    ensures Prefix(Amounts(side), x + 1) == SideSum(lines, idx[x] + 1, debit)
  {
    SideSumStep(lines, idx[x]);
    assert Prefix(Amounts(side), x + 1) == Prefix(Amounts(side), x) + Amounts(side)[x] as int;
  }

  lemma OverlapIs(lines: seq<Line>, p: seq<nat>, q: seq<nat>, debits: seq<Line>, credits: seq<Line>, x: nat, y: nat)
    requires Selects(lines, true, p, debits) && Selects(lines, false, q, credits) && x < |p| && y < |q|
    ensures Start(Amounts(debits), Amounts(credits), x, y) == From(lines, p[x], q[y])
    ensures End(Amounts(debits), Amounts(credits), x, y) == To(lines, p[x], q[y])
  {
    OneSideEnds(lines, true, p, debits, x);
    OneSideEnds(lines, false, q, credits, y);
  }

  predicate AllPositive(lines: seq<Line>) {
    forall k :: 0 <= k < |lines| ==> 1 <= lines[k].amount
  }

  /** Which lines of the entry each cell is for. */
  function Places(cells: seq<Cell>, p: seq<nat>, q: seq<nat>): (r: seq<(nat, nat)>)
    requires InRange(cells, |p|, |q|)
  {
    seq(|cells|, k requires 0 <= k < |cells| => (p[cells[k].debit], q[cells[k].credit]))
  }

  lemma CellIsOverlap(lines: seq<Line>, p: seq<nat>, q: seq<nat>, debits: seq<Line>, credits: seq<Line>, c: Cell, b: Branch)
    requires Selects(lines, true, p, debits) && Selects(lines, false, q, credits)
    requires c.debit < |debits| && c.credit < |credits|
    requires var D, C := Amounts(debits), Amounts(credits);
             && Start(D, C, c.debit, c.credit) < End(D, C, c.debit, c.credit)
             && c.amount as int == End(D, C, c.debit, c.credit) - Start(D, C, c.debit, c.credit)
    requires b == Branch(debits[c.debit].(amount := c.amount), credits[c.credit].(amount := c.amount))
    ensures IsOverlap(lines, p[c.debit], q[c.credit], b)
  {
    OverlapIs(lines, p, q, debits, credits, c.debit, c.credit);
  }

  /** Every two lines that meet have their cell. */
  lemma MeetingHasCell(lines: seq<Line>, p: seq<nat>, q: seq<nat>, debits: seq<Line>, credits: seq<Line>, cells: seq<Cell>,
                       i: nat, j: nat)
    requires Selects(lines, true, p, debits) && Selects(lines, false, q, credits)
    requires InRange(cells, |debits|, |credits|) && AllMet(Amounts(debits), Amounts(credits), cells) && Meet(lines, i, j)
    ensures (i, j) in Places(cells, p, q)
  {
    assert IsOn(lines[i], true) && IsOn(lines[j], false);
    var x: nat :| x < |p| && p[x] == i;
    var y: nat :| y < |q| && q[y] == j;
    OverlapIs(lines, p, q, debits, credits, x, y);
    var k :| 0 <= k < |cells| && cells[k].debit == x && cells[k].credit == y;
    assert Places(cells, p, q)[k] == (i, j);
  }

  ghost predicate AllMet(D: seq<int64>, C: seq<int64>, cells: seq<Cell>) {
    forall x: nat, y: nat :: x < |D| && y < |C| && Start(D, C, x, y) < End(D, C, x, y) ==>
      exists k :: 0 <= k < |cells| && cells[k].debit == x && cells[k].credit == y
  }

  /** Cells of an overlay of the two sides are branches of an overlay of the entry's own lines. */
  lemma CellsOverlay(lines: seq<Line>, p: seq<nat>, q: seq<nat>, debits: seq<Line>, credits: seq<Line>, cells: seq<Cell>)
    requires Selects(lines, true, p, debits) && Selects(lines, false, q, credits)
    requires CellsAreOverlaps(Amounts(debits), Amounts(credits), cells) && Increasing(cells)
    requires AllMet(Amounts(debits), Amounts(credits), cells)
    ensures IsOverlay(lines, Branches(cells, debits, credits))
  {
    var at, branches := Places(cells, p, q), Branches(cells, debits, credits);
    forall k | 0 <= k < |at|
      ensures IsOverlap(lines, at[k].0, at[k].1, branches[k])
    {
      CellIsOverlap(lines, p, q, debits, credits, cells[k], branches[k]);
    }
    SelectedInOrder(cells, p, q, at);
    forall i: nat, j: nat | Meet(lines, i, j)
      ensures (i, j) in at
    {
      MeetingHasCell(lines, p, q, debits, credits, cells, i, j);
    }
    assert Overlays(lines, at, branches);
  }

  /** The branches of the walk, on the entry's own lines. */
  lemma WalkIsOverlay(lines: seq<Line>)
    requires AllPositive(lines)
    ensures var debits, credits, cells := Side(lines, true), Side(lines, false), WalkOf(lines).cells;
            InRange(cells, |debits|, |credits|) && IsOverlay(lines, Branches(cells, debits, credits))
  {
    var debits, credits := Side(lines, true), Side(lines, false);
    var p := SideIsSelection(lines, true);
    var q := SideIsSelection(lines, false);
    PairingIsOverlay(Amounts(debits), Amounts(credits));
    CellsOverlay(lines, p, q, debits, credits, WalkOf(lines).cells);
  }

  lemma SelectedInOrder(cells: seq<Cell>, p: seq<nat>, q: seq<nat>, at: seq<(nat, nat)>)
    requires Increasing(cells) && InRange(cells, |p|, |q|) && |at| == |cells|
    requires forall k, l :: 0 <= k < l < |p| ==> p[k] < p[l]
    requires forall k, l :: 0 <= k < l < |q| ==> q[k] < q[l]
    requires forall k :: 0 <= k < |at| ==> at[k] == (p[cells[k].debit], q[cells[k].credit])
    ensures forall k: nat, l: nat :: k < l < |at| ==>
              at[k].0 <= at[l].0 && at[k].1 <= at[l].1 && at[k].0 + at[k].1 < at[l].0 + at[l].1
  {
    forall k: nat, l: nat | k < l < |at|
      ensures at[k].0 <= at[l].0 && at[k].1 <= at[l].1 && at[k].0 + at[k].1 < at[l].0 + at[l].1
    {
      var c, d := cells[k], cells[l];
      assert c.debit <= d.debit && c.credit <= d.credit && c.debit + c.credit < d.debit + d.credit;
      assert p[c.debit] <= p[d.debit] && q[c.credit] <= q[d.credit];
      assert c.debit < d.debit || c.credit < d.credit;
    }
  }

  /** An entry has one overlay, so this says everything about its branches. */
  lemma OverlayIsUnique(lines: seq<Line>, a: seq<Branch>, b: seq<Branch>)
    requires IsOverlay(lines, a) && IsOverlay(lines, b)
    ensures a == b
  {
    var at: seq<(nat, nat)> :| Overlays(lines, at, a);
    var bt: seq<(nat, nat)> :| Overlays(lines, bt, b);
    SameOrder(at, bt);
    forall k | 0 <= k < |a|
      ensures a[k] == b[k]
    {
      assert IsOverlap(lines, at[k].0, at[k].1, a[k]) && IsOverlap(lines, at[k].0, at[k].1, b[k]);
    }
  }

  ghost predicate Ascending(at: seq<(nat, nat)>) {
    forall k, l :: 0 <= k < l < |at| ==> at[k].0 + at[k].1 < at[l].0 + at[l].1
  }

  lemma {:induction false} SameOrder(at: seq<(nat, nat)>, bt: seq<(nat, nat)>)
    requires Ascending(at) && Ascending(bt) && forall c: (nat, nat) :: c in at <==> c in bt
    ensures at == bt
  {
    assert bt != [] ==> bt[0] in at;
    if at == [] {
    } else {
      LastIsGreatest(at, bt);
      var m, n := |at| - 1, |bt| - 1;
      forall c: (nat, nat)
        ensures c in at[..m] <==> c in bt[..n]
      {
        InInit(at, c);
        InInit(bt, c);
      }
      SameOrder(at[..m], bt[..n]);
      Rejoined(at);
      Rejoined(bt);
    }
  }

  lemma Rejoined(at: seq<(nat, nat)>)
    requires at != []
    ensures at == at[..|at| - 1] + [at[|at| - 1]]
  {
  }

  lemma LastIsGreatest(at: seq<(nat, nat)>, bt: seq<(nat, nat)>)
    requires at != [] && Ascending(at) && Ascending(bt) && forall c: (nat, nat) :: c in at <==> c in bt
    ensures bt != [] && at[|at| - 1] == bt[|bt| - 1]
  {
    assert at[|at| - 1] in bt;
    var k :| 0 <= k < |bt| && bt[k] == at[|at| - 1];
    assert bt[|bt| - 1] in at;
    var l :| 0 <= l < |at| && at[l] == bt[|bt| - 1];
  }

  lemma InInit(at: seq<(nat, nat)>, c: (nat, nat))
    requires at != [] && Ascending(at)
    ensures c in at[..|at| - 1] <==> c in at && c != at[|at| - 1]
  {
  }

  /** Debits of 100 and 50 against credits of 120 and 30: the first debit goes to the first credit. */
  lemma ConcretePairing(a: Line, b: Line, c: Line, d: Line)
    requires a.side == "debit" && a.amount == 100 && b.side == "debit" && b.amount == 50
    requires c.side == "credit" && c.amount == 120 && d.side == "credit" && d.amount == 30
    ensures IsOverlay([a, c, b, d], [Branch(a, c.(amount := 100)), Branch(b.(amount := 20), c.(amount := 20)),
                                     Branch(b.(amount := 30), d)])
  {
    var lines, at := [a, c, b, d], [(0, 1), (2, 1), (2, 3)];
    FourSums(lines, true);
    FourSums(lines, false);
    var branches := [Branch(a, c.(amount := 100)), Branch(b.(amount := 20), c.(amount := 20)), Branch(b.(amount := 30), d)];
    assert IsOverlap(lines, 0, 1, branches[0]);
    assert IsOverlap(lines, 2, 1, branches[1]);
    assert IsOverlap(lines, 2, 3, branches[2]);
    assert at[0] == (0, 1) && at[1] == (2, 1) && at[2] == (2, 3);
    assert Overlays(lines, at, branches);
  }

  lemma FourSums(lines: seq<Line>, debit: bool)
    requires |lines| == 4
    ensures SideSum(lines, 0, debit) == 0
    ensures SideSum(lines, 1, debit) == Share(lines[0], debit)
    ensures SideSum(lines, 2, debit) == Share(lines[0], debit) + Share(lines[1], debit)
    ensures SideSum(lines, 3, debit) == Share(lines[0], debit) + Share(lines[1], debit) + Share(lines[2], debit)
    ensures SideSum(lines, 4, debit)
         == Share(lines[0], debit) + Share(lines[1], debit) + Share(lines[2], debit) + Share(lines[3], debit)
  {
    assert SideSum(lines, 1, debit) == SideSum(lines, 0, debit) + Share(lines[0], debit);
    assert SideSum(lines, 2, debit) == SideSum(lines, 1, debit) + Share(lines[1], debit);
    assert SideSum(lines, 3, debit) == SideSum(lines, 2, debit) + Share(lines[2], debit);
  }

  // ---- How many branches ----

  /** The end points of a side's intervals: its prefix sums without the leading zero. */
  ghost function Ends(a: seq<int64>): set<int> {
    set k | 0 < k <= |a| :: Prefix(a, k)
  }

  ghost function EndsAfter(D: seq<int64>, C: seq<int64>, t: int): set<int> {
    set e | e in Ends(D) + Ends(C) && t < e
  }

  /** No end point lies inside an overlap. */
  lemma NextEnd(D: seq<int64>, C: seq<int64>, ds: seq<int64>, cs: seq<int64>, i: nat, j: nat, t: int)
    requires State(D, C, ds, cs, i, j, t) && i < |D| && j < |C|
    ensures var e := End(D, C, i, j); EndsAfter(D, C, t) == {e} + EndsAfter(D, C, e) && e !in EndsAfter(D, C, e)
  {
    var e := End(D, C, i, j);
    assert e in Ends(D) + Ends(C);
    forall x | x in Ends(D) && t < x
      ensures e <= x
    {
      var k :| 0 < k <= |D| && x == Prefix(D, k);
      EndsLater(D, i, k - 1, t);
      PrefixIncreasing(D, i + 1, k);
    }
    forall x | x in Ends(C) && t < x
      ensures e <= x
    {
      var k :| 0 < k <= |C| && x == Prefix(C, k);
      EndsLater(C, j, k - 1, t);
      PrefixIncreasing(C, j + 1, k);
    }
  }

  lemma {:induction false} WalkCount(D: seq<int64>, C: seq<int64>, ds: seq<int64>, cs: seq<int64>, i: nat, j: nat, t: int)
    requires State(D, C, ds, cs, i, j, t) && Prefix(D, |D|) == Prefix(C, |C|)
    ensures |WalkFrom(ds, cs, i, j).cells| == |EndsAfter(D, C, t)|
    decreases |D| - i + |C| - j
  {
    if i < |D| && j < |C| {
      var ds', cs', i', j', c := Round(D, C, ds, cs, i, j, t);
      NextEnd(D, C, ds, cs, i, j, t);
      WalkCount(D, C, ds', cs', i', j', End(D, C, i, j));
    } else {
      PrefixIncreasing(D, if i < |D| then i + 1 else i, |D|);
      PrefixIncreasing(C, if j < |C| then j + 1 else j, |C|);
      NoEndsAfter(D, t);
      NoEndsAfter(C, t);
      assert EndsAfter(D, C, t) == {};
    }
  }

  lemma NoEndsAfter(a: seq<int64>, t: int)
    requires Positive(a) && Prefix(a, |a|) <= t
    ensures forall e :: e in Ends(a) ==> e <= t
  {
    forall e | e in Ends(a)
      ensures e <= t
    {
      var k :| 0 < k <= |a| && e == Prefix(a, k);
      PrefixIncreasing(a, k, |a|);
    }
  }

  ghost function EndsUpTo(a: seq<int64>, n: nat): set<int>
    requires n <= |a|
  {
    if n == 0 then {} else EndsUpTo(a, n - 1) + {Prefix(a, n)}
  }

  lemma {:induction false} EndsCount(a: seq<int64>, n: nat)
    requires Positive(a) && n <= |a|
    ensures |EndsUpTo(a, n)| == n
    ensures forall e :: e in EndsUpTo(a, n) ==> 0 < e <= Prefix(a, n)
    ensures forall k :: 0 < k <= n ==> Prefix(a, k) in EndsUpTo(a, n)
    ensures forall e :: e in EndsUpTo(a, n) ==> e in Ends(a)
  {
    if n > 0 {
      EndsCount(a, n - 1);
      PrefixIncreasing(a, n - 1, n);
      PrefixIncreasing(a, 0, n);
      assert Prefix(a, n) in Ends(a);
    }
  }

  /**
   * On sides of equal positive total there are as many branches as distinct end points, so at most one less than the lines,
   * which is the capacity the source reserves, and both cursors run out in the same round.
   */
  lemma BranchCount(D: seq<int64>, C: seq<int64>)
    requires Positive(D) && Positive(C) && 0 < Prefix(D, |D|) == Prefix(C, |C|)
    ensures var w := WalkFrom(D, C, 0, 0);
            && |w.cells| == |Ends(D) + Ends(C)| <= |D| + |C| - 1
            && w.debitEnd == |D| && w.creditEnd == |C|
  {
    StartsMatched(D, C);
    WalkCount(D, C, D, C, 0, 0, 0);
    WalkEnds(D, C, D, C, 0, 0, 0);
    EndsCount(D, |D|);
    EndsCount(C, |C|);
    EndsUpToAll(D);
    EndsUpToAll(C);
    var total := Prefix(D, |D|);
    assert EndsAfter(D, C, 0) == Ends(D) + Ends(C);
    SharedEnd(Ends(D), Ends(C), total);
  }

  lemma EndsUpToAll(a: seq<int64>)
    requires Positive(a)
    ensures Ends(a) == EndsUpTo(a, |a|)
  {
    EndsCount(a, |a|);
    forall e | e in Ends(a)
      ensures e in EndsUpTo(a, |a|)
    {
      var k :| 0 < k <= |a| && e == Prefix(a, k);
    }
    forall e | e in EndsUpTo(a, |a|)
      ensures e in Ends(a)
    {
    }
  }

  lemma SharedEnd(x: set<int>, y: set<int>, e: int)
    requires e in x && e in y
    ensures |x + y| <= |x| + |y| - 1
  {
    assert e in x * y;
    assert |x + y| + |x * y| == |x| + |y|;
  }

  // ---- Conservation ----

  /** What the branches whose debit (or credit) line is selected move in total. */
  ghost function Moved(cells: seq<Cell>, debit: bool, sel: nat -> bool): int {
    if cells == [] then 0
    else (if sel(if debit then cells[0].debit else cells[0].credit) then cells[0].amount as int else 0)
         + Moved(cells[1..], debit, sel)
  }

  /** The selected amounts from position `i` on. */
  ghost function Selected(a: seq<int64>, i: nat, sel: nat -> bool): int
    requires i <= |a|
    decreases |a| - i
  {
    if i == |a| then 0 else (if sel(i) then a[i] as int else 0) + Selected(a, i + 1, sel)
  }

  lemma {:induction false} SelectedSame(a: seq<int64>, b: seq<int64>, i: nat, sel: nat -> bool)
    requires i <= |a| == |b| && forall k :: i <= k < |a| ==> a[k] == b[k]
    ensures Selected(a, i, sel) == Selected(b, i, sel)
    decreases |a| - i
  {
    if i < |a| {
      SelectedSame(a, b, i + 1, sel);
    }
  }

  /** What is unmatched on one side: the rest of the current line and all of the later ones. */
  lemma {:induction false} WalkConserves(D: seq<int64>, C: seq<int64>, ds: seq<int64>, cs: seq<int64>, i: nat, j: nat, t: int,
                                         sel: nat -> bool)
    requires State(D, C, ds, cs, i, j, t) && Prefix(D, |D|) == Prefix(C, |C|)
    ensures Moved(WalkFrom(ds, cs, i, j).cells, true, sel) == Selected(ds, i, sel)
    ensures Moved(WalkFrom(ds, cs, i, j).cells, false, sel) == Selected(cs, j, sel)
    decreases |D| - i + |C| - j
  {
    if i < |D| && j < |C| {
      var ds', cs', i', j', c := Round(D, C, ds, cs, i, j, t);
      WalkConserves(D, C, ds', cs', i', j', End(D, C, i, j), sel);
      var rest := WalkFrom(ds', cs', i', j').cells;
      assert ([c] + rest)[1..] == rest;
      SelectedAdvance(D, ds, ds', i, i', t, End(D, C, i, j), sel);
      SelectedAdvance(C, cs, cs', j, j', t, End(D, C, i, j), sel);
    } else {
      PrefixIncreasing(D, if i < |D| then i + 1 else i, |D|);
      PrefixIncreasing(C, if j < |C| then j + 1 else j, |C|);
    }
  }

  lemma SelectedAdvance(D: seq<int64>, ds: seq<int64>, ds': seq<int64>, i: nat, i': nat, t: int, t': int, sel: nat -> bool)
    requires Matched(D, ds, i, t) && Matched(D, ds', i', t') && i < |D| && i <= i' <= i + 1
    requires i' == i + 1 <==> Prefix(D, i + 1) == t'
    ensures Selected(ds, i, sel) == Selected(ds', i', sel) + (if sel(i) then t' - t else 0)
  {
    if i' == i {
      SelectedSame(ds, ds', i + 1, sel);
    } else {
      SelectedSame(ds, ds', i', sel);
    }
  }
}
