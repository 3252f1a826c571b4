/**
 * The file structure `renderDocument` writes (providers/document_generation/pdf/renderer.go:29-43): numbered objects, their
 * offsets, the cross-reference table and the trailer, with a reader that starts from the end of the file as ISO 32000-1
 * sections 7.5.4 and 7.5.5 prescribe.
 */
module PdfFile {
  import opened GoStrings
  import opened Bytes

  /** The part of a table entry after its ten digits: a generation of five digits, the kind, and two bytes to end the line. */
  predicate IsEntryEnd(s: seq<byte>, kind: byte) {
    && |s| == 10 && s[0] == 32 && AllDigits(s[1..6]) && s[6] == 32 && s[7] == kind
    && (s[8..] == [32, 13] || s[8..] == [32, 10] || s[8..] == [13, 10])
  }

  /** An entry of a cross-reference table (ISO 32000-1 section 7.5.4): the kind is `n` when in use and `f` when free. */
  predicate IsEntry(s: seq<byte>, kind: byte) {
    |s| == 20 && AllDigits(s[..10]) && IsEntryEnd(s[10..], kind)
  }

  /** The fixed spellings between the variable parts of the file. */
  datatype Keywords = Keywords(
    header: seq<byte>, obj: seq<byte>, endobj: seq<byte>, xref: seq<byte>, newline: seq<byte>, free: seq<byte>,
    inUse: seq<byte>, trailer: seq<byte>, root: seq<byte>, endRoot: seq<byte>, startxref: seq<byte>, eof: seq<byte>)
  {
    /** What the reader relies on: table entries of the two kinds, and no digit directly around a number. */
    predicate Sound() {
      && IsEntry(free, 102) && IsEntryEnd(inUse, 110)
      && obj != [] && !IsDigit(obj[0])
      && newline != [] && !IsDigit(newline[0])
      && root != [] && !IsDigit(root[0])
      && endRoot != [] && !IsDigit(endRoot[0])
      && startxref != [] && !IsDigit(startxref[|startxref| - 1])
      && eof != []
    }
  }

  const KEYWORDS := Keywords(
    Ascii("%PDF-1.7\n%") + [0xE2, 0xE3, 0xCF, 0xD3] + Ascii("\n"), Ascii(" 0 obj\n"), Ascii("\nendobj\n"), Ascii("xref\n0 "),
    Ascii("\n"), Ascii("0000000000 65535 f \n"), Ascii(" 00000 n \n"), Ascii("trailer\n<< /Size "),
    Ascii(" /Root "), Ascii(" 0 R >>\n"), Ascii("startxref\n"), Ascii("\n%%EOF\n"))

  lemma EntryEndIs(g: seq<byte>, kind: byte)
    requires |g| == 5 && AllDigits(g)
    ensures IsEntryEnd([32] + g + [32, kind, 32, 10], kind)
  {
    var s := [32] + g + [32, kind, 32, 10];
    assert s[1..6] == g && s[8..] == [32, 10];
  }

  lemma FreeEntryIsSound()
    ensures IsEntry(KEYWORDS.free, 102)
  {
    var offset, generation := [48, 48, 48, 48, 48, 48, 48, 48, 48, 48], [54, 53, 53, 51, 53];
    EntryEndIs(generation, 102);
    var end := [32] + generation + [32, 102, 32, 10];
    assert KEYWORDS.free == offset + end;
    assert (offset + end)[..10] == offset && (offset + end)[10..] == end;
  }

  lemma KeywordsAreSound()
    ensures KEYWORDS.Sound()
  {
    FreeEntryIsSound();
    EntryEndIs([48, 48, 48, 48, 48], 110);
    assert KEYWORDS.inUse == [32] + [48, 48, 48, 48, 48] + [32, 110, 32, 10];
  }

  /** The number of the object the trailer names as the root. */
  const ROOT: nat := 1

  // ---- What is written ----

  function NumberedObject(kw: Keywords, k: nat, content: seq<byte>): (r: seq<byte>) {
    Decimal(k) + kw.obj + content + kw.endobj
  }

  /** The header and the first `n` objects. */
  function Body(kw: Keywords, objects: seq<seq<byte>>, n: nat): (r: seq<byte>)
    requires n <= |objects|
  {
    if n == 0 then kw.header else Body(kw, objects, n - 1) + NumberedObject(kw, n, objects[n - 1])
  }

  /** The offset of object `k + 1` is where the first `k` objects end. */
  function Offsets(kw: Keywords, objects: seq<seq<byte>>): (r: seq<nat>)
    ensures |r| == |objects|
  {
    seq(|objects|, k requires 0 <= k < |objects| => |Body(kw, objects, k)|)
  }

  function Entry(kw: Keywords, offset: nat): (r: seq<byte>) {
    Padded(offset, 10) + kw.inUse
  }

  function Entries(kw: Keywords, offsets: seq<nat>): (r: seq<byte>) {
    if offsets == [] then [] else Entry(kw, offsets[0]) + Entries(kw, offsets[1..])
  }

  function Table(kw: Keywords, offsets: seq<nat>): (r: seq<byte>) {
    kw.xref + (Decimal(|offsets| + 1) + (kw.newline + (kw.free + Entries(kw, offsets))))
  }

  function Trailer(kw: Keywords, size: nat, xref: nat): (r: seq<byte>) {
    kw.trailer + (Decimal(size) + AfterSize(kw, xref))
  }

  function AfterSize(kw: Keywords, xref: nat): (r: seq<byte>) {
    kw.root + (Decimal(ROOT) + (kw.endRoot + (kw.startxref + (Decimal(xref) + kw.eof))))
  }

  function File(kw: Keywords, objects: seq<seq<byte>>): (r: seq<byte>) {
    var body := Body(kw, objects, |objects|);
    body + (Table(kw, Offsets(kw, objects)) + Trailer(kw, |objects| + 1, |body|))
  }

  // ---- How it is read ----

  /** The longest run of digits `s` ends with. */
  function TrailingDigits(s: seq<byte>): (n: nat)
    ensures n <= |s| && AllDigits(s[|s| - n..])
  {
    if s == [] || !IsDigit(s[|s| - 1]) then 0
    else
      var init := s[..|s| - 1];
      var n := TrailingDigits(init);
      assert s[|s| - (n + 1)..] == init[|init| - n..] + [s[|s| - 1]];
      n + 1
  }

  /** The number on the line between `startxref` and the end-of-file marker. */
  function ReadStartXref(kw: Keywords, file: seq<byte>): Option<nat> {
    if |file| < |kw.eof| || file[|file| - |kw.eof|..] != kw.eof then None
    else
      var rest := file[..|file| - |kw.eof|];
      var n := TrailingDigits(rest);
      var before := rest[..|rest| - n];
      if n == 0 || |before| < |kw.startxref| || before[|before| - |kw.startxref|..] != kw.startxref then None
      else Some(Value(rest[|rest| - n..]))
  }

  /** `k` in-use entries of exactly 20 bytes each. */
  function ReadEntries(s: seq<byte>, k: nat): Option<(seq<nat>, seq<byte>)> {
    if k == 0 then Some(([], s))
    else if |s| < 20 || !AllDigits(s[..10]) || !IsEntryEnd(s[10..20], 110) then None
    else
      match ReadEntries(s[20..], k - 1)
      case None => None
      case Some((offsets, rest)) => Some(([Value(s[..10])] + offsets, rest))
  }

  function ReadSection(kw: Keywords, s: seq<byte>): Option<(seq<nat>, seq<byte>)> {
    match Expect(kw.xref, s)
    case None => None
    case Some(afterXref) =>
      match ReadDecimal(afterXref)
      case None => None
      case Some((size, afterSize)) =>
        match Expect(kw.newline, afterSize)
        case None => None
        case Some(afterLine) =>
          if size == 0 || |afterLine| < 20 || !IsEntry(afterLine[..20], 102) then None else ReadEntries(afterLine[20..], size - 1)
  }

  /** The trailer: how many entries the table has, and the number of the root object. */
  function ReadTrailer(kw: Keywords, s: seq<byte>): Option<(nat, nat)> {
    match Expect(kw.trailer, s)
    case None => None
    case Some(afterTrailer) =>
      match ReadDecimal(afterTrailer)
      case None => None
      case Some((size, afterSize)) =>
        match Expect(kw.root, afterSize)
        case None => None
        case Some(reference) =>
          match ReadDecimal(reference)
          case None => None
          case Some((root, afterRoot)) => if kw.endRoot <= afterRoot then Some((size, root)) else None
  }

  /** From the table on; the trailer must agree on the number of objects. */
  function ReadTable(kw: Keywords, s: seq<byte>): Option<(seq<nat>, nat)> {
    match ReadSection(kw, s)
    case None => None
    case Some((offsets, afterTable)) =>
      match ReadTrailer(kw, afterTable)
      case None => None
      case Some((size, root)) => if size == |offsets| + 1 then Some((offsets, root)) else None
  }

  /** From the end of the file to the offsets of its objects and the root. */
  function ReadOffsets(kw: Keywords, file: seq<byte>): Option<(seq<nat>, nat)> {
    match ReadStartXref(kw, file)
    case None => None
    case Some(start) => if |file| < start then None else ReadTable(kw, file[start..])
  }

  /** What follows "k 0 obj" at the recorded offset of object `k`. */
  function ReadObject(kw: Keywords, file: seq<byte>, offsets: seq<nat>, k: nat): Option<seq<byte>> {
    if k == 0 || |offsets| < k || |file| < offsets[k - 1] then None
    else
      match ReadDecimal(file[offsets[k - 1]..])
      case None => None
      case Some((number, rest)) => if number != k then None else Expect(kw.obj, rest)
  }

  // ---- Reading undoes writing ----

  lemma {:induction false} TrailingDigitsOwn(s: seq<byte>, d: seq<byte>)
    requires AllDigits(d) && (s != [] ==> !IsDigit(s[|s| - 1]))
    ensures TrailingDigits(s + d) == |d|
  {
    if d == [] {
      assert s + d == s;
    } else {
      TrailingDigitsOwn(s, d[..|d| - 1]);
      assert (s + d)[..|s + d| - 1] == s + d[..|d| - 1];
    }
  }

  lemma Cut(a: seq<byte>, b: seq<byte>)
    ensures (a + b)[|a + b| - |b|..] == b && (a + b)[..|a + b| - |b|] == a
  {
  }

  lemma ReadOwnStartXref(kw: Keywords, front: seq<byte>, xref: nat)
    requires kw.Sound()
    ensures ReadStartXref(kw, front + kw.startxref + Decimal(xref) + kw.eof) == Some(xref)
  {
    var before, d := front + kw.startxref, Decimal(xref);
    Cut(before + d, kw.eof);
    assert before[|before| - 1] == kw.startxref[|kw.startxref| - 1];
    TrailingDigitsOwn(before, d);
    Cut(before, d);
    Cut(front, kw.startxref);
    ValueOfDecimal(xref);
  }

  /** A table entry has its 20 bytes exactly while the offset is below 10^10, and only then can it be read back. */
  lemma ReadOwnEntry(kw: Keywords, offset: nat, rest: seq<byte>)
    requires kw.Sound()
    ensures var s := Entry(kw, offset) + rest;
            && (|Entry(kw, offset)| == 20 <==> offset < Pow10(10))
            && 20 <= |s| && AllDigits(s[..10])
            && (IsEntryEnd(s[10..20], 110) <==> offset < Pow10(10))
            && (offset < Pow10(10) ==> Value(s[..10]) == offset && s[20..] == rest)
  {
    PaddedIsFixedWidth(offset, 10);
    var p := Padded(offset, 10);
    var s := Entry(kw, offset) + rest;
    assert s[..10] == p[..10];
    if |p| == 10 {
      assert p[..10] == p && s[10..20] == kw.inUse && s[20..] == rest;
    } else {
      assert IsDigit(p[10]) && s[10..20][0] == p[10];
    }
  }

  /** So it is an in-use entry of ISO 32000-1 section 7.5.4 exactly then. */
  lemma EntryIsInUse(offset: nat)
    ensures IsEntry(Entry(KEYWORDS, offset), 110) <==> offset < Pow10(10)
    ensures Entry(KEYWORDS, offset) == Padded(offset, 10) + [32, 48, 48, 48, 48, 48, 32, 110, 32, 10]
  {
    KeywordsAreSound();
    assert KEYWORDS.inUse == [32, 48, 48, 48, 48, 48, 32, 110, 32, 10];
    ReadOwnEntry(KEYWORDS, offset, []);
    assert Entry(KEYWORDS, offset) + [] == Entry(KEYWORDS, offset);
    if |Entry(KEYWORDS, offset)| == 20 {
      assert Entry(KEYWORDS, offset)[10..20] == Entry(KEYWORDS, offset)[10..];
    }
  }

  predicate AllBelow(offsets: seq<nat>, bound: nat) {
    forall k :: 0 <= k < |offsets| ==> offsets[k] < bound
  }

  lemma {:induction false} ReadOwnEntries(kw: Keywords, offsets: seq<nat>, rest: seq<byte>)
    requires kw.Sound()
    ensures ReadEntries(Entries(kw, offsets) + rest, |offsets|)
         == if AllBelow(offsets, Pow10(10)) then Some((offsets, rest)) else None
  {
    if offsets == [] {
      assert Entries(kw, offsets) + rest == rest;
    } else {
      var tail := Entries(kw, offsets[1..]) + rest;
      assert Entries(kw, offsets) + rest == Entry(kw, offsets[0]) + tail;
      ReadOwnEntry(kw, offsets[0], tail);
      ReadOwnEntries(kw, offsets[1..], rest);
      assert offsets == [offsets[0]] + offsets[1..];
      assert AllBelow(offsets, Pow10(10)) <==> offsets[0] < Pow10(10) && AllBelow(offsets[1..], Pow10(10));
    }
  }

  lemma ReadOwnSection(kw: Keywords, offsets: seq<nat>, rest: seq<byte>)
    requires kw.Sound()
    ensures ReadSection(kw, Table(kw, offsets) + rest)
         == if AllBelow(offsets, Pow10(10)) then Some((offsets, rest)) else None
  {
    var entries := Entries(kw, offsets) + rest;
    var afterLine := kw.free + entries;
    var afterSize := kw.newline + afterLine;
    var afterXref := Decimal(|offsets| + 1) + afterSize;
    assert Table(kw, offsets) + rest == kw.xref + afterXref;
    ExpectOwn(kw.xref, afterXref);
    ReadOwnDecimal(|offsets| + 1, afterSize);
    ExpectOwn(kw.newline, afterLine);
    assert afterLine[..20] == kw.free && afterLine[20..] == entries;
    ReadOwnEntries(kw, offsets, rest);
  }

  lemma ReadOwnTrailer(kw: Keywords, size: nat, xref: nat)
    requires kw.Sound()
    ensures ReadTrailer(kw, Trailer(kw, size, xref)) == Some((size, ROOT))
  {
    var afterRoot := kw.endRoot + (kw.startxref + (Decimal(xref) + kw.eof));
    var afterSize := kw.root + (Decimal(ROOT) + afterRoot);
    ExpectOwn(kw.trailer, Decimal(size) + afterSize);
    ReadOwnDecimal(size, afterSize);
    ExpectOwn(kw.root, Decimal(ROOT) + afterRoot);
    ReadOwnDecimal(ROOT, afterRoot);
  }

  lemma {:induction false} EntriesAppend(kw: Keywords, offsets: seq<nat>, offset: nat)
    ensures Entries(kw, offsets + [offset]) == Entries(kw, offsets) + Entry(kw, offset)
  {
    if offsets == [] {
      assert offsets + [offset] == [offset];
      assert Entries(kw, [offset]) == Entry(kw, offset) + Entries(kw, []);
    } else {
      EntriesAppend(kw, offsets[1..], offset);
      assert (offsets + [offset])[1..] == offsets[1..] + [offset];
      Associate(Entry(kw, offsets[0]), Entries(kw, offsets[1..]), Entry(kw, offset));
    }
  }

  lemma FileEndsWith(kw: Keywords, body: seq<byte>, table: seq<byte>, size: nat, xref: nat) returns (front: seq<byte>)
    ensures body + (table + Trailer(kw, size, xref)) == front + kw.startxref + Decimal(xref) + kw.eof
  {
    front := body + table + kw.trailer + Decimal(size) + kw.root + Decimal(ROOT) + kw.endRoot;
    Flatten(body, table, kw.trailer, Decimal(size), kw.root, Decimal(ROOT), kw.endRoot, kw.startxref + (Decimal(xref) + kw.eof));
    Associate(front, kw.startxref, Decimal(xref) + kw.eof);
    Associate(front + kw.startxref, Decimal(xref), kw.eof);
  }

  lemma Flatten(a: seq<byte>, b: seq<byte>, c: seq<byte>, d: seq<byte>, e: seq<byte>, f: seq<byte>, g: seq<byte>, h: seq<byte>)
    ensures a + (b + (c + (d + (e + (f + (g + h)))))) == a + b + c + d + e + f + g + h
  {
    Associate(a, b, c + (d + (e + (f + (g + h)))));
    Associate(a + b, c, d + (e + (f + (g + h))));
    Associate(a + b + c, d, e + (f + (g + h)));
    Associate(a + b + c + d, e, f + (g + h));
    Associate(a + b + c + d + e, f, g + h);
    Associate(a + b + c + d + e + f, g, h);
  }

  lemma TableRoundTrip(kw: Keywords, offsets: seq<nat>, xref: nat)
    requires kw.Sound()
    ensures ReadTable(kw, Table(kw, offsets) + Trailer(kw, |offsets| + 1, xref))
         == if AllBelow(offsets, Pow10(10)) then Some((offsets, ROOT)) else None
  {
    ReadOwnSection(kw, offsets, Trailer(kw, |offsets| + 1, xref));
    ReadOwnTrailer(kw, |offsets| + 1, xref);
  }

  lemma StartXrefRoundTrip(kw: Keywords, body: seq<byte>, table: seq<byte>, size: nat)
    requires kw.Sound()
    ensures ReadStartXref(kw, body + (table + Trailer(kw, size, |body|))) == Some(|body|)
  {
    var front := FileEndsWith(kw, body, table, size, |body|);
    ReadOwnStartXref(kw, front, |body|);
  }

  lemma ReadFrom(kw: Keywords, body: seq<byte>, rest: seq<byte>)
    requires ReadStartXref(kw, body + rest) == Some(|body|)
    ensures ReadOffsets(kw, body + rest) == ReadTable(kw, rest)
  {
    assert (body + rest)[|body|..] == rest;
  }

  lemma ReadAfterBody(kw: Keywords, body: seq<byte>, offsets: seq<nat>)
    requires kw.Sound()
    ensures ReadOffsets(kw, body + (Table(kw, offsets) + Trailer(kw, |offsets| + 1, |body|)))
         == if AllBelow(offsets, Pow10(10)) then Some((offsets, ROOT)) else None
  {
    StartXrefRoundTrip(kw, body, Table(kw, offsets), |offsets| + 1);
    TableRoundTrip(kw, offsets, |body|);
    ReadFrom(kw, body, Table(kw, offsets) + Trailer(kw, |offsets| + 1, |body|));
  }

  /** The reader gets exactly the recorded offsets when they are all below 10^10, and gets nothing otherwise. */
  lemma OffsetsRoundTrip(kw: Keywords, objects: seq<seq<byte>>)
    requires kw.Sound()
    ensures ReadOffsets(kw, File(kw, objects))
         == if AllBelow(Offsets(kw, objects), Pow10(10)) then Some((Offsets(kw, objects), ROOT)) else None
  {
    var offsets, body := Offsets(kw, objects), Body(kw, objects, |objects|);
    ReadAfterBody(kw, body, offsets);
    assert File(kw, objects) == body + (Table(kw, offsets) + Trailer(kw, |offsets| + 1, |body|));
  }

  lemma {:induction false} ObjectIsAtOffset(kw: Keywords, objects: seq<seq<byte>>, k: nat, n: nat) returns (rest: seq<byte>)
    requires 0 < k <= n <= |objects|
    ensures Body(kw, objects, n) == Body(kw, objects, k - 1) + (NumberedObject(kw, k, objects[k - 1]) + rest)
  {
    if k == n {
      rest := [];
      assert NumberedObject(kw, k, objects[k - 1]) + rest == NumberedObject(kw, k, objects[k - 1]);
    } else {
      var shorter := ObjectIsAtOffset(kw, objects, k, n - 1);
      rest := shorter + NumberedObject(kw, n, objects[n - 1]);
      Reassociate(Body(kw, objects, k - 1), NumberedObject(kw, k, objects[k - 1]), shorter, NumberedObject(kw, n, objects[n - 1]));
    }
  }

  lemma Reassociate(a: seq<byte>, b: seq<byte>, c: seq<byte>, d: seq<byte>)
    ensures a + (b + c) + d == a + (b + (c + d))
  {
  }

  lemma ReadObjectAt(kw: Keywords, file: seq<byte>, offsets: seq<nat>, k: nat, content: seq<byte>, after: seq<byte>)
    requires kw.Sound() && 0 < k <= |offsets| && offsets[k - 1] <= |file|
    requires file[offsets[k - 1]..] == NumberedObject(kw, k, content) + after
    ensures ReadObject(kw, file, offsets, k) == Some(content + kw.endobj + after)
  {
    var rest := kw.obj + (content + kw.endobj + after);
    assert NumberedObject(kw, k, content) + after == Decimal(k) + rest;
    ReadOwnDecimal(k, rest);
    ExpectOwn(kw.obj, content + kw.endobj + after);
  }

  lemma SuffixAt(front: seq<byte>, a: seq<byte>, b: seq<byte>, c: seq<byte>, d: seq<byte>)
    requires d == front + (a + b)
    ensures (d + c)[|front|..] == a + (b + c)
  {
  }

  /** The recorded offset of object `k` points at "k 0 obj", followed by the object and "endobj". */
  lemma ObjectRoundTrip(kw: Keywords, objects: seq<seq<byte>>, k: nat) returns (after: seq<byte>)
    requires kw.Sound() && 0 < k <= |objects|
    ensures ReadObject(kw, File(kw, objects), Offsets(kw, objects), k) == Some(objects[k - 1] + kw.endobj + after)
  {
    var body := Body(kw, objects, |objects|);
    var tail := Table(kw, Offsets(kw, objects)) + Trailer(kw, |objects| + 1, |body|);
    var between := ObjectIsAtOffset(kw, objects, k, |objects|);
    after := between + tail;
    SuffixAt(Body(kw, objects, k - 1), NumberedObject(kw, k, objects[k - 1]), between, tail, body);
    assert File(kw, objects) == body + tail;
    ReadObjectAt(kw, body + tail, Offsets(kw, objects), k, objects[k - 1], after);
  }

  lemma {:induction false} BodyGrows(kw: Keywords, objects: seq<seq<byte>>, k: nat, n: nat)
    requires k <= n <= |objects|
    ensures |Body(kw, objects, k)| <= |Body(kw, objects, n)|
  {
    if k < n {
      BodyGrows(kw, objects, k, n - 1);
    }
  }

  /** So the last object's offset decides whether the table can be read. */
  lemma LastOffsetDecides(kw: Keywords, objects: seq<seq<byte>>, bound: nat)
    requires objects != []
    ensures AllBelow(Offsets(kw, objects), bound) <==> |Body(kw, objects, |objects| - 1)| < bound
  {
    var offsets := Offsets(kw, objects);
    assert offsets[|objects| - 1] == |Body(kw, objects, |objects| - 1)|;
    if k :| 0 <= k < |offsets| && bound <= offsets[k] {
      BodyGrows(kw, objects, k, |objects| - 1);
    }
  }
}
