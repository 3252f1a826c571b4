/**
 * `renderDocument` (providers/document_generation/pdf/renderer.go:10-44) and the reader that undoes it. Streams follow
 * ISO 32000-1 section 7.3.8; the file structure around them is in PdfFile, the text inside them in PdfContent.
 */
module PdfDocument {
  import opened GoStrings
  import opened Bytes
  import opened PdfText
  import opened PdfContent
  import opened PdfFile

  // ---- The stream object ----

  datatype StreamWords = StreamWords(length: seq<byte>, stream: seq<byte>, endstream: seq<byte>) {
    predicate Sound() {
      stream != [] && !IsDigit(stream[0])
    }
  }

  const STREAM_WORDS := StreamWords(Ascii("<< /Length "), Ascii(" >>\nstream\n"), Ascii("endstream"))

  function StreamObject(words: StreamWords, data: seq<byte>): (r: seq<byte>) {
    words.length + (Decimal(|data|) + (words.stream + (data + words.endstream)))
  }

  /** Takes exactly as many bytes as the dictionary says, and insists on `endstream` right after them. */
  function ReadStream(words: StreamWords, s: seq<byte>): Option<seq<byte>> {
    match Expect(words.length, s)
    case None => None
    case Some(afterLength) =>
      match ReadDecimal(afterLength)
      case None => None
      case Some((length, afterNumber)) =>
        match Expect(words.stream, afterNumber)
        case None => None
        case Some(data) => if length <= |data| && words.endstream <= data[length..] then Some(data[..length]) else None
  }

  lemma StreamRoundTrip(words: StreamWords, data: seq<byte>, after: seq<byte>)
    requires words.Sound()
    ensures ReadStream(words, StreamObject(words, data) + after) == Some(data)
  {
    var rest := data + (words.endstream + after);
    var afterNumber := words.stream + rest;
    assert StreamObject(words, data) + after == words.length + (Decimal(|data|) + afterNumber);
    ExpectOwn(words.length, Decimal(|data|) + afterNumber);
    ReadOwnDecimal(|data|, afterNumber);
    ExpectOwn(words.stream, rest);
    assert rest[..|data|] == data && rest[|data|..] == words.endstream + after;
  }

  // ---- The dictionaries that lead to it ----

  /** A dictionary with one reference the reader follows, and what stands around its number. */
  datatype Dictionary = Dictionary(before: seq<byte>, target: nat, after: seq<byte>)

  datatype Layout = Layout(catalog: Dictionary, pages: Dictionary, page: Dictionary, reference: seq<byte>) {
    predicate Sound() {
      reference != [] && !IsDigit(reference[0])
    }
  }

  const LAYOUT := Layout(
    Dictionary(Ascii("<< /Type /Catalog /Pages "), 2, Ascii(" >>")),
    Dictionary(Ascii("<< /Type /Pages /Kids ["), 3, Ascii("] /Count 1 >>")),
    Dictionary(
      Ascii("<< /Type /Page /Parent 2 0 R /MediaBox [0 0 595 842] /Resources << /Font << /F1 5 0 R >> >> /Contents "), 4,
      Ascii(" >>")),
    Ascii(" 0 R"))

  function Written(layout: Layout, d: Dictionary): (r: seq<byte>) {
    d.before + (Decimal(d.target) + (layout.reference + d.after))
  }

  /** Put together, these are the writer's texts. */
  lemma DictionariesAreSpelledOut()
    ensures Written(LAYOUT, LAYOUT.catalog) == Ascii("<< /Type /Catalog /Pages 2 0 R >>")
    ensures Written(LAYOUT, LAYOUT.pages) == Ascii("<< /Type /Pages /Kids [3 0 R] /Count 1 >>")
    ensures Written(LAYOUT, LAYOUT.page)
         == Ascii("<< /Type /Page /Parent 2 0 R /MediaBox [0 0 595 842] /Resources << /Font << /F1 5 0 R >> >> /Contents 4 0 R >>")
  {
    CatalogIsSpelledOut();
    PagesAreSpelledOut();
    PageIsSpelledOut();
  }

  lemma CatalogIsSpelledOut()
    ensures Written(LAYOUT, LAYOUT.catalog) == Ascii("<< /Type /Catalog /Pages 2 0 R >>")
  {
    assert Decimal(2) == [50];
  }

  lemma PagesAreSpelledOut()
    ensures Written(LAYOUT, LAYOUT.pages) == Ascii("<< /Type /Pages /Kids [3 0 R] /Count 1 >>")
  {
    assert Decimal(3) == [51];
  }

  lemma PageIsSpelledOut()
    ensures Written(LAYOUT, LAYOUT.page)
         == Ascii("<< /Type /Page /Parent 2 0 R /MediaBox [0 0 595 842] /Resources << /Font << /F1 5 0 R >> >> /Contents 4 0 R >>")
  {
    assert Decimal(4) == [52];
  }

  /** The number in the reference that follows `before`. */
  function ReadReference(layout: Layout, before: seq<byte>, s: seq<byte>): Option<nat> {
    match Expect(before, s)
    case None => None
    case Some(rest) =>
      match ReadDecimal(rest)
      case None => None
      case Some((number, after)) => if layout.reference <= after then Some(number) else None
  }

  lemma ReferenceRoundTrip(layout: Layout, d: Dictionary, after: seq<byte>)
    requires layout.Sound()
    ensures ReadReference(layout, d.before, Written(layout, d) + after) == Some(d.target)
  {
    var rest := layout.reference + (d.after + after);
    Nest(d.before, Decimal(d.target), layout.reference, d.after, after);
    ExpectOwn(d.before, Decimal(d.target) + rest);
    ReadOwnDecimal(d.target, rest);
  }

  lemma Nest(a: seq<byte>, b: seq<byte>, c: seq<byte>, d: seq<byte>, e: seq<byte>)
    ensures a + b + c + d + e == a + (b + (c + (d + e)))
    ensures a + (b + (c + d)) + e == a + (b + (c + (d + e)))
  {
  }

  // ---- The document ----

  const FONT := Ascii("<< /Type /Font /Subtype /Type0 /BaseFont /STSong-Light /Encoding /UniGB-UCS2-H /DescendantFonts [6 0 R] >>")
  const CID_FONT := Ascii("<< /Type /Font /Subtype /CIDFontType0 /BaseFont /STSong-Light /CIDSystemInfo << /Registry (Adobe) /Ordering (GB1) /Supplement 4 >> >>")

  /** The font dictionaries, which the reader of the text does not need. */
  lemma FontsAreSpelledOut(stream: seq<byte>)
    ensures Objects(stream)[4]
         == Ascii("<< /Type /Font /Subtype /Type0 /BaseFont /STSong-Light /Encoding /UniGB-UCS2-H /DescendantFonts [6 0 R] >>")
    ensures Objects(stream)[5]
         == Ascii("<< /Type /Font /Subtype /CIDFontType0 /BaseFont /STSong-Light /CIDSystemInfo << /Registry (Adobe) /Ordering (GB1) /Supplement 4 >> >>")
  {
  }

  function Objects(stream: seq<byte>): (r: seq<seq<byte>>) {
    [Written(LAYOUT, LAYOUT.catalog), Written(LAYOUT, LAYOUT.pages), Written(LAYOUT, LAYOUT.page),
     StreamObject(STREAM_WORDS, stream), FONT, CID_FONT]
  }

  function ObjectsOf(lines: seq<string>, watermark: string): (r: seq<seq<byte>>) {
    Objects(Content(OPERATORS, lines, watermark))
  }

  function Document(lines: seq<string>, watermark: string): (r: seq<byte>) {
    if lines == [] then [] else File(KEYWORDS, ObjectsOf(lines, watermark))
  }

  // ---- How it is read ----

  /** What the reader needs to know about the spellings. */
  datatype Format = Format(kw: Keywords, layout: Layout, words: StreamWords, ops: Operators) {
    predicate Sound() {
      kw.Sound() && layout.Sound() && words.Sound() && ops.Distinct()
    }
  }

  const FORMAT := Format(KEYWORDS, LAYOUT, STREAM_WORDS, OPERATORS)

  /** What the reader looks for. It shares no spelling with the writer. */
  const READER := Format(
    Keywords(
      Ascii("%PDF-1.7\n%") + [226, 227, 207, 211, 10], Ascii(" 0 obj\n"), Ascii("\nendobj\n"), Ascii("xref\n0 "), [10],
      Ascii("0000000000 65535 f \n"), Ascii(" 00000 n \n"), Ascii("trailer\n<< /Size "), Ascii(" /Root "), Ascii(" 0 R >>\n"),
      Ascii("startxref\n"), Ascii("\n%%EOF\n")),
    Layout(
      Dictionary(Ascii("<< /Type /Catalog /Pages "), 2, Ascii(" >>")),
      Dictionary(Ascii("<< /Type /Pages /Kids ["), 3, Ascii("] /Count 1 >>")),
      Dictionary(
        Ascii("<< /Type /Page /Parent 2 0 R /MediaBox [0 0 595 842] /Resources << /Font << /F1 5 0 R >> >> /Contents "), 4,
        Ascii(" >>")),
      Ascii(" 0 R")),
    StreamWords(Ascii("<< /Length "), Ascii(" >>\nstream\n"), Ascii("endstream")),
    Operators(
      Ascii("BT\n/F1 12 Tf\n50 790 Td\n16 TL\n"), Ascii("0.85 g\n"), Ascii(" Tj\n0 g\n0 -32 Td\n"), Ascii(" Tj\n"),
      Ascii("T*\n"), Ascii("ET\n")))

  /** The writer's spellings are those. */
  lemma SpellingsAgree()
    ensures FORMAT == READER
  {
    KeywordsAgree();
    LayoutsAgree();
    StreamWordsAgree();
    OperatorsAgree();
  }

  lemma KeywordsAgree()
    ensures KEYWORDS == READER.kw
  {
  }

  lemma LayoutsAgree()
    ensures LAYOUT == READER.layout
  {
  }

  lemma StreamWordsAgree()
    ensures STREAM_WORDS == READER.words
  {
  }

  lemma OperatorsAgree()
    ensures OPERATORS == READER.ops
  {
  }

  /** Reads object `k` and the reference in it. */
  function Follow(fmt: Format, file: seq<byte>, offsets: seq<nat>, k: nat, before: seq<byte>): Option<nat> {
    match ReadObject(fmt.kw, file, offsets, k)
    case None => None
    case Some(content) => ReadReference(fmt.layout, before, content)
  }

  /** From the root through the page tree to the number of the page's contents: /Pages, /Kids and /Contents. */
  function FindContents(fmt: Format, file: seq<byte>, offsets: seq<nat>, root: nat): Option<nat> {
    match Follow(fmt, file, offsets, root, fmt.layout.catalog.before)
    case None => None
    case Some(pages) =>
      match Follow(fmt, file, offsets, pages, fmt.layout.pages.before)
      case None => None
      case Some(page) => Follow(fmt, file, offsets, page, fmt.layout.page.before)
  }

  /** The text in the stream of object `k`. */
  function ReadText(fmt: Format, file: seq<byte>, offsets: seq<nat>, k: nat): Option<(seq<string>, string)> {
    match ReadObject(fmt.kw, file, offsets, k)
    case None => None
    case Some(content) =>
      match ReadStream(fmt.words, content)
      case None => None
      case Some(stream) => ReadContent(fmt.ops, stream)
  }

  /** Starts from the end of the file and follows every reference on the way. */
  function ReadFile(fmt: Format, file: seq<byte>): Option<(seq<string>, string)> {
    match ReadOffsets(fmt.kw, file)
    case None => None
    case Some((offsets, root)) =>
      match FindContents(fmt, file, offsets, root)
      case None => None
      case Some(contents) => ReadText(fmt, file, offsets, contents)
  }

  /** A file that says it is PDF. */
  function ReadDocument(file: seq<byte>): Option<(seq<string>, string)> {
    if [37, 80, 68, 70, 45] <= file then ReadFile(READER, file) else None
  }

  /** The offset of the last object: the largest number the cross-reference table has to hold. */
  function LastOffset(lines: seq<string>, watermark: string): nat {
    |Body(KEYWORDS, ObjectsOf(lines, watermark), 5)|
  }

  lemma FormatIsSound()
    ensures FORMAT.Sound()
  {
    KeywordsAreSound();
  }

  lemma {:induction false} StartsWithHeader(kw: Keywords, objects: seq<seq<byte>>, n: nat)
    requires n <= |objects|
    ensures kw.header <= Body(kw, objects, n)
  {
    if n > 0 {
      StartsWithHeader(kw, objects, n - 1);
    }
  }

  lemma SaysItIsPdf(objects: seq<seq<byte>>)
    ensures [37, 80, 68, 70, 45] <= File(KEYWORDS, objects)
  {
    assert KEYWORDS.header[..5] == [37, 80, 68, 70, 45];
    StartsWithHeader(KEYWORDS, objects, |objects|);
    assert File(KEYWORDS, objects)[..5] == KEYWORDS.header[..5];
  }

  // ---- Reading undoes writing, stage by stage ----

  lemma FollowOwn(fmt: Format, objects: seq<seq<byte>>, k: nat, d: Dictionary)
    requires fmt.Sound() && 0 < k <= |objects| && objects[k - 1] == Written(fmt.layout, d)
    ensures Follow(fmt, File(fmt.kw, objects), Offsets(fmt.kw, objects), k, d.before) == Some(d.target)
  {
    var after := ObjectRoundTrip(fmt.kw, objects, k);
    ReferenceAmid(fmt, d, fmt.kw.endobj, after);
  }

  lemma ReferenceAmid(fmt: Format, d: Dictionary, endobj: seq<byte>, after: seq<byte>)
    requires fmt.layout.Sound()
    ensures ReadReference(fmt.layout, d.before, Written(fmt.layout, d) + endobj + after) == Some(d.target)
  {
    ReferenceRoundTrip(fmt.layout, d, endobj + after);
    Associate(Written(fmt.layout, d), endobj, after);
  }

  /** The objects are chained by their references: root, pages, page, contents. */
  ghost predicate Chained(fmt: Format, objects: seq<seq<byte>>, root: nat) {
    && 0 < root <= |objects| && objects[root - 1] == Written(fmt.layout, fmt.layout.catalog)
    && 0 < fmt.layout.catalog.target <= |objects|
    && objects[fmt.layout.catalog.target - 1] == Written(fmt.layout, fmt.layout.pages)
    && 0 < fmt.layout.pages.target <= |objects|
    && objects[fmt.layout.pages.target - 1] == Written(fmt.layout, fmt.layout.page)
  }

  lemma FindOwnContents(fmt: Format, objects: seq<seq<byte>>, root: nat)
    requires fmt.Sound() && Chained(fmt, objects, root)
    ensures FindContents(fmt, File(fmt.kw, objects), Offsets(fmt.kw, objects), root) == Some(fmt.layout.page.target)
  {
    FollowOwn(fmt, objects, root, fmt.layout.catalog);
    FollowOwn(fmt, objects, fmt.layout.catalog.target, fmt.layout.pages);
    FollowOwn(fmt, objects, fmt.layout.pages.target, fmt.layout.page);
  }

  lemma StreamAmid(words: StreamWords, data: seq<byte>, endobj: seq<byte>, after: seq<byte>)
    requires words.Sound()
    ensures ReadStream(words, StreamObject(words, data) + endobj + after) == Some(data)
  {
    StreamRoundTrip(words, data, endobj + after);
    Associate(StreamObject(words, data), endobj, after);
  }

  lemma ReadOwnText(fmt: Format, objects: seq<seq<byte>>, k: nat, lines: seq<string>, watermark: string)
    requires fmt.Sound() && lines != [] && 0 < k <= |objects|
    requires objects[k - 1] == StreamObject(fmt.words, Content(fmt.ops, lines, watermark))
    ensures ReadText(fmt, File(fmt.kw, objects), Offsets(fmt.kw, objects), k) == Some((lines, watermark))
  {
    var after := ObjectRoundTrip(fmt.kw, objects, k);
    StreamAmid(fmt.words, Content(fmt.ops, lines, watermark), fmt.kw.endobj, after);
    ContentRoundTrip(fmt.ops, lines, watermark);
  }

  lemma FileRoundTrip(fmt: Format, objects: seq<seq<byte>>, lines: seq<string>, watermark: string)
    requires fmt.Sound() && Chained(fmt, objects, ROOT) && lines != [] && 0 < fmt.layout.page.target <= |objects|
    requires objects[fmt.layout.page.target - 1] == StreamObject(fmt.words, Content(fmt.ops, lines, watermark))
    ensures ReadFile(fmt, File(fmt.kw, objects))
         == if AllBelow(Offsets(fmt.kw, objects), Pow10(10)) then Some((lines, watermark)) else None
  {
    OffsetsRoundTrip(fmt.kw, objects);
    FindOwnContents(fmt, objects, ROOT);
    ReadOwnText(fmt, objects, fmt.layout.page.target, lines, watermark);
  }

  lemma ObjectsAreChained(lines: seq<string>, watermark: string)
    ensures var objects := ObjectsOf(lines, watermark);
            && Chained(FORMAT, objects, ROOT)
            && objects[FORMAT.layout.page.target - 1] == StreamObject(FORMAT.words, Content(FORMAT.ops, lines, watermark))
  {
  }

  /**
   * The reader recovers the lines, in order, and the watermark of every document with at least one line, as long as the last
   * object starts below 10^10; beyond that an entry of the table outgrows its 20 bytes and nothing can be read.
   */
  lemma DocumentRoundTrip(lines: seq<string>, watermark: string)
    requires lines != []
    ensures ReadDocument(Document(lines, watermark))
         == if LastOffset(lines, watermark) < Pow10(10) then Some((lines, watermark)) else None
  {
    FormatIsSound();
    SpellingsAgree();
    SaysItIsPdf(ObjectsOf(lines, watermark));
    ObjectsAreChained(lines, watermark);
    LastOffsetDecides(KEYWORDS, ObjectsOf(lines, watermark), Pow10(10));
    FileRoundTrip(FORMAT, ObjectsOf(lines, watermark), lines, watermark);
  }

  // ---- The operation ----

  method RenderContent(ops: Operators, lines: seq<string>, watermark: string) returns (stream: seq<byte>)
    ensures stream == Content(ops, lines, watermark)
  {
    stream := ops.prologue;
    if watermark != "" {
      stream := stream + ops.grey;
      var hex := PdfHex(watermark);
      stream := stream + hex;
      stream := stream + ops.leaveGrey;
      Regroup(ops.prologue, ops.grey, hex, ops.leaveGrey);
    }
    assert stream == ops.prologue + Watermark(ops, watermark);
    stream := RenderLines(ops, stream, lines);
    stream := stream + ops.epilogue;
  }

  /** The loop over the lines, appending to the stream so far. */
  method RenderLines(ops: Operators, front: seq<byte>, lines: seq<string>) returns (stream: seq<byte>)
    ensures stream == front + TextLines(ops, lines)
  {
    stream := front;
    for index := 0 to |lines|
      invariant stream == front + TextLines(ops, lines[..index])
    {
      ShowStep(ops, stream, front, lines[..index], lines[index]);
      assert lines[..index + 1] == lines[..index] + [lines[index]];
      if index > 0 {
        stream := stream + ops.nextLine;
      }
      var hex := PdfHex(lines[index]);
      stream := stream + hex;
      stream := stream + ops.show;
    }
    assert lines[..|lines|] == lines;
  }

  lemma ShowStep(ops: Operators, stream: seq<byte>, front: seq<byte>, done: seq<string>, line: string)
    requires stream == front + TextLines(ops, done)
    ensures (if done == [] then stream else stream + ops.nextLine) + PdfHexOf(line) + ops.show
         == front + TextLines(ops, done + [line])
  {
    TextLinesAppend(ops, done, line);
    if done == [] {
      Flatten(front, TextLines(ops, done), [], PdfHexOf(line), ops.show);
    } else {
      Flatten(front, TextLines(ops, done), ops.nextLine, PdfHexOf(line), ops.show);
    }
  }

  lemma Flatten(a: seq<byte>, b: seq<byte>, c: seq<byte>, d: seq<byte>, e: seq<byte>)
    ensures a + b + c + d + e == a + (b + c + (d + e))
    ensures c == [] ==> a + b + d + e == a + (b + c + (d + e))
  {
  }

  /** Appends object after object, recording where each starts. */
  method RenderBody(kw: Keywords, objects: seq<seq<byte>>) returns (output: seq<byte>, offsets: array<nat>)
    ensures output == Body(kw, objects, |objects|)
    ensures fresh(offsets) && offsets.Length == |objects| + 1 && offsets[1..] == Offsets(kw, objects)
  {
    output := kw.header;
    offsets := new nat[|objects| + 1];
    for index := 0 to |objects|
      invariant output == Body(kw, objects, index)
      invariant forall k :: 0 <= k < index ==> offsets[k + 1] == |Body(kw, objects, k)|
    {
      offsets[index + 1] := |output|;
      output := output + NumberedObject(kw, index + 1, objects[index]);
    }
  }

  /** The cross-reference section for the recorded offsets; entry 0 is the free one. */
  method RenderTable(kw: Keywords, offsets: array<nat>) returns (table: seq<byte>)
    requires 0 < offsets.Length
    ensures table == Table(kw, offsets[1..])
  {
    ghost var expected := offsets[1..];
    table := kw.xref + Decimal(offsets.Length) + kw.newline + kw.free;
    ghost var front := table;
    for index := 1 to offsets.Length
      invariant table == front + Entries(kw, expected[..index - 1])
    {
      EntryStep(kw, table, front, expected[..index - 1], offsets[index]);
      TakeOneMore(expected, index - 1);
      table := table + Entry(kw, offsets[index]);
    }
    assert expected[..offsets.Length - 1] == expected;
    Nest(kw.xref, Decimal(offsets.Length), kw.newline, kw.free, Entries(kw, expected));
  }

  lemma TakeOneMore(offsets: seq<nat>, k: nat)
    requires k < |offsets|
    ensures offsets[..k] + [offsets[k]] == offsets[..k + 1]
  {
  }

  lemma EntryStep(kw: Keywords, table: seq<byte>, front: seq<byte>, done: seq<nat>, offset: nat)
    requires table == front + Entries(kw, done)
    ensures table + Entry(kw, offset) == front + Entries(kw, done + [offset])
  {
    EntriesAppend(kw, done, offset);
    Associate(front, Entries(kw, done), Entry(kw, offset));
  }

  lemma TrailerParts(kw: Keywords, size: nat, xref: nat)
    ensures kw.trailer + Decimal(size) + (kw.root + Decimal(ROOT) + kw.endRoot) + (kw.startxref + Decimal(xref) + kw.eof)
         == Trailer(kw, size, xref)
  {
    var end := kw.startxref + Decimal(xref) + kw.eof;
    Associate(kw.startxref, Decimal(xref), kw.eof);
    Associate(kw.root, Decimal(ROOT), kw.endRoot);
    Associate(kw.trailer, Decimal(size), kw.root + Decimal(ROOT) + kw.endRoot);
    Nest(kw.trailer, Decimal(size), kw.root, Decimal(ROOT) + kw.endRoot, end);
    Associate(Decimal(ROOT), kw.endRoot, end);
  }

  /** Body, table and trailer. */
  method RenderFile(kw: Keywords, objects: seq<seq<byte>>) returns (output: seq<byte>)
    ensures output == File(kw, objects)
  {
    var offsets;
    output, offsets := RenderBody(kw, objects);
    var xref := |output|;
    var table := RenderTable(kw, offsets);
    output := output + table;
    output := output + (kw.trailer + Decimal(|objects| + 1) + (kw.root + Decimal(ROOT) + kw.endRoot)
                        + (kw.startxref + Decimal(xref) + kw.eof));
    TrailerParts(kw, |objects| + 1, xref);
  }

  method RenderDocument(lines: seq<string>, watermark: string) returns (document: seq<byte>)
    ensures document == Document(lines, watermark)
    ensures lines != [] && LastOffset(lines, watermark) < Pow10(10) ==> ReadDocument(document) == Some((lines, watermark))
  {
    if |lines| == 0 {
      return [];
    }
    var stream := RenderContent(OPERATORS, lines, watermark);
    var objects := [Written(LAYOUT, LAYOUT.catalog), Written(LAYOUT, LAYOUT.pages), Written(LAYOUT, LAYOUT.page),
                    StreamObject(STREAM_WORDS, stream), FONT, CID_FONT];
    document := RenderFile(KEYWORDS, objects);
    DocumentRoundTrip(lines, watermark);
  }
}
