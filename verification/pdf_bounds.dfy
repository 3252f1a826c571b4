/**
 * How large a document may become: the offset that decides whether it can be read, as a function of what the caller passes, and
 * the documents `render` makes (providers/document_generation/pdf/provider.go:101-117), which are always small enough.
 */
module PdfBounds {
  import opened GoStrings
  import opened Bytes
  import opened PdfText
  import opened PdfContent
  import opened PdfFile
  import opened PdfDocument
  import Utf8

  // ---- Lengths ----

  lemma {:induction false} UnitsAreFourBytes(units: seq<unit>)
    ensures |HexUnits(units)| == 4 * |units|
  {
    if units != [] {
      UnitsAreFourBytes(units[..|units| - 1]);
    }
  }

  lemma HexLength(value: string)
    ensures |PdfHexOf(value)| == 6 + 4 * |EncodeUtf16(value)|
  {
    UnitsAreFourBytes(EncodeUtf16(value));
    assert |BOM| == 5;
  }

  /** The UTF-16 units of all lines together. */
  function Units(lines: seq<string>): nat {
    if lines == [] then 0 else |EncodeUtf16(lines[0])| + Units(lines[1..])
  }

  lemma {:induction false} LinesLength(ops: Operators, lines: seq<string>)
    requires lines != []
    ensures |TextLines(ops, lines)|
         == |lines| * (6 + |ops.show|) + (|lines| - 1) * |ops.nextLine| + 4 * Units(lines)
  {
    HexLength(lines[0]);
    if |lines| > 1 {
      LinesLength(ops, lines[1..]);
      calc {
        |TextLines(ops, lines)|;
        6 + 4 * |EncodeUtf16(lines[0])| + |ops.show| + |ops.nextLine| + |TextLines(ops, lines[1..])|;
        { OneMore(|lines| - 1, 6 + |ops.show|); OneMore(|lines| - 2, |ops.nextLine|); }
        |lines| * (6 + |ops.show|) + (|lines| - 1) * |ops.nextLine| + 4 * Units(lines);
      }
    } else {
      assert |lines| * (6 + |ops.show|) == 6 + |ops.show|;
      assert Units(lines[1..]) == 0;
    }
  }

  lemma OneMore(k: int, x: int)
    ensures (k + 1) * x == k * x + x
  {
  }

  /** The length of the content stream: 13 bytes a line, 4 a unit, and 30 for a watermark. */
  function StreamLength(lines: seq<string>, watermark: string): nat
    requires lines != []
  {
    29 + (if watermark == "" then 0 else 30 + 4 * |EncodeUtf16(watermark)|) + 13 * |lines| + 4 * Units(lines)
  }

  lemma OperatorLengths()
    ensures |OPERATORS.prologue| == 29 && |OPERATORS.grey| == 7 && |OPERATORS.leaveGrey| == 17
    ensures |OPERATORS.show| == 4 && |OPERATORS.nextLine| == 3 && |OPERATORS.epilogue| == 3
  {
  }

  lemma WatermarkLength(ops: Operators, watermark: string)
    ensures |Watermark(ops, watermark)|
         == if watermark == "" then 0 else |ops.grey| + 6 + 4 * |EncodeUtf16(watermark)| + |ops.leaveGrey|
  {
    HexLength(watermark);
  }

  lemma PartsLength(ops: Operators, lines: seq<string>, watermark: string)
    ensures |Content(ops, lines, watermark)|
         == |ops.prologue| + |Watermark(ops, watermark)| + |TextLines(ops, lines)| + |ops.epilogue|
  {
  }

  lemma ContentLengthOf(ops: Operators, lines: seq<string>, watermark: string)
    requires lines != []
    requires |ops.prologue| == 29 && |ops.grey| == 7 && |ops.leaveGrey| == 17
    requires |ops.show| == 4 && |ops.nextLine| == 3 && |ops.epilogue| == 3
    ensures |Content(ops, lines, watermark)| == StreamLength(lines, watermark)
  {
    PartsLength(ops, lines, watermark);
    LinesLength(ops, lines);
    WatermarkLength(ops, watermark);
  }

  lemma ContentLength(lines: seq<string>, watermark: string)
    requires lines != []
    ensures |Content(OPERATORS, lines, watermark)| == StreamLength(lines, watermark)
  {
    OperatorLengths();
    ContentLengthOf(OPERATORS, lines, watermark);
  }

  lemma ObjectLength(kw: Keywords, k: nat, content: seq<byte>)
    requires k < 10
    ensures |NumberedObject(kw, k, content)| == 1 + |kw.obj| + |content| + |kw.endobj|
  {
  }

  /** The first five objects of six. */
  lemma FiveObjects(kw: Keywords, objects: seq<seq<byte>>)
    requires |objects| == 6
    ensures |Body(kw, objects, 5)|
         == |kw.header| + 5 * (1 + |kw.obj| + |kw.endobj|)
            + |objects[0]| + |objects[1]| + |objects[2]| + |objects[3]| + |objects[4]|
  {
    ObjectLength(kw, 1, objects[0]);
    ObjectLength(kw, 2, objects[1]);
    ObjectLength(kw, 3, objects[2]);
    ObjectLength(kw, 4, objects[3]);
    ObjectLength(kw, 5, objects[4]);
    assert |Body(kw, objects, 1)| == |Body(kw, objects, 0)| + |NumberedObject(kw, 1, objects[0])|;
    assert |Body(kw, objects, 2)| == |Body(kw, objects, 1)| + |NumberedObject(kw, 2, objects[1])|;
    assert |Body(kw, objects, 3)| == |Body(kw, objects, 2)| + |NumberedObject(kw, 3, objects[2])|;
    assert |Body(kw, objects, 4)| == |Body(kw, objects, 3)| + |NumberedObject(kw, 4, objects[3])|;
  }

  lemma KeywordLengths()
    ensures |KEYWORDS.header| == 15 && |KEYWORDS.obj| == 7 && |KEYWORDS.endobj| == 8
  {
  }

  lemma DictionaryLengths()
    ensures |Written(LAYOUT, LAYOUT.catalog)| == 33 && |Written(LAYOUT, LAYOUT.pages)| == 41
    ensures |Written(LAYOUT, LAYOUT.page)| == 110 && |FONT| == 106
  {
  }

  lemma StreamObjectLength(data: seq<byte>)
    ensures |StreamObject(STREAM_WORDS, data)| == 31 + |Decimal(|data|)| + |data|
  {
    assert |STREAM_WORDS.length| == 11 && |STREAM_WORDS.stream| == 11 && |STREAM_WORDS.endstream| == 9;
  }

  // ---- The offset that decides ----

  /** The last object's offset in closed form. */
  lemma LastOffsetIs(lines: seq<string>, watermark: string)
    requires lines != []
    ensures var n := StreamLength(lines, watermark); LastOffset(lines, watermark) == 416 + |Decimal(n)| + n
  {
    ContentLength(lines, watermark);
    KeywordLengths();
    DictionaryLengths();
    StreamObjectLength(Content(OPERATORS, lines, watermark));
    FiveObjects(KEYWORDS, ObjectsOf(lines, watermark));
  }

  /** The longest stream whose document can still be read. */
  const LONGEST: nat := 9_999_999_573

  lemma OffsetFits(n: nat)
    ensures 416 + |Decimal(n)| + n < Pow10(10) <==> n <= LONGEST
  {
    TenPowers();
    DecimalWidth(n, 9);
    DecimalWidth(n, 10);
  }

  lemma TenPowers()
    ensures Pow10(9) == 1_000_000_000 && Pow10(10) == 10_000_000_000
  {
    assert Pow10(3) == 1000;
    assert Pow10(6) == 1000 * Pow10(3);
    assert Pow10(9) == 1000 * Pow10(6);
  }

  /** A document can be read back exactly when its stream, whose length the caller can work out, is no longer than that. */
  lemma ReadableExactly(lines: seq<string>, watermark: string)
    requires lines != []
    ensures ReadDocument(Document(lines, watermark))
         == if StreamLength(lines, watermark) <= LONGEST then Some((lines, watermark)) else None
  {
    LastOffsetIs(lines, watermark);
    OffsetFits(StreamLength(lines, watermark));
    DocumentRoundTrip(lines, watermark);
  }

  lemma {:induction false} PlainLength(s: string)
    requires forall k :: 0 <= k < |s| ==> (s[k] as int) < 0x1_0000
    ensures |EncodeUtf16(s)| == |s|
  {
    if s != "" {
      PlainLength(s[1..]);
    }
  }

  /** One line of two and a half thousand million letters is too long. */
  lemma LongLineIsNotReadable()
    ensures var line := seq(2_500_000_000, _ => 'a'); ReadDocument(Document([line], "")) == None
  {
    var line := seq(2_500_000_000, _ => 'a');
    PlainLength(line);
    assert [line][0] == line && [line][1..] == [];
    assert Units([line][1..]) == 0;
    ReadableExactly([line], "");
  }

  // ---- The documents `render` makes ----

  /** `strings.Split(s, "\n")`. */
  function SplitLines(s: string): (r: seq<string>)
    ensures r != []
  {
    if s == "" then [""]
    else
      var rest := SplitLines(s[1..]);
      if s[0] == '\n' then [""] + rest else [[s[0]] + rest[0]] + rest[1..]
  }

  /** Line feeds between the parts give back the text, and no part has one. */
  lemma {:induction false} SplitJoins(s: string)
    ensures Join(SplitLines(s), "\n") == s
    ensures forall k :: 0 <= k < |SplitLines(s)| ==> '\n' !in SplitLines(s)[k]
  {
    if s != "" {
      var rest := SplitLines(s[1..]);
      SplitJoins(s[1..]);
      assert s == [s[0]] + s[1..];
      if s[0] == '\n' {
        JoinNew(rest, "\n");
      } else {
        JoinPrepend(s[0], rest, "\n");
      }
    }
  }

  /** `maximumContentLimit`. */
  const LIMIT: nat := 4_194_304

  /** The lines of a rendered document: header and footer when there are any, the title, and the content line by line. */
  function DocumentLines(header: string, title: string, content: string, footer: string): (r: seq<string>)
    ensures r != []
  {
    (if header != "" then [header] else []) + [title] + SplitLines(ReplaceCrLf(content)) + (if footer != "" then [footer] else [])
  }

  /** In this order: the header unless empty, the title, the lines of the content, the footer unless empty. */
  ghost predicate Assembled(lines: seq<string>, header: string, title: string, middle: seq<string>, footer: string) {
    if header != "" then lines != [] && lines[0] == header && Assembled(lines[1..], "", title, middle, footer)
    else if footer != "" then
      lines != [] && lines[|lines| - 1] == footer && lines[..|lines| - 1] == [title] + middle
    else lines == [title] + middle
  }

  lemma AssembledOf(header: string, title: string, middle: seq<string>, footer: string)
    ensures Assembled((if header != "" then [header] else []) + [title] + middle + (if footer != "" then [footer] else []),
                      header, title, middle, footer)
  {
    var end := if footer != "" then [footer] else [];
    var lines := [title] + middle + end;
    assert [title] + middle + [] == [title] + middle;
    assert Assembled(lines, "", title, middle, footer);
    if header != "" {
      assert [header] + [title] + middle + end == [header] + lines;
      assert ([header] + lines)[1..] == lines;
    } else {
      assert [] + [title] + middle + end == lines;
    }
  }

  lemma DocumentLinesAre(header: string, title: string, content: string, footer: string) returns (middle: seq<string>)
    ensures Assembled(DocumentLines(header, title, content, footer), header, title, middle, footer)
    ensures Join(middle, "\n") == ReplaceCrLf(content) && forall k :: 0 <= k < |middle| ==> '\n' !in middle[k]
  {
    middle := SplitLines(ReplaceCrLf(content));
    AssembledOf(header, title, middle, footer);
    SplitJoins(ReplaceCrLf(content));
  }

  lemma {:induction false} UnitsAppend(a: seq<string>, b: seq<string>)
    ensures Units(a + b) == Units(a) + Units(b)
  {
    if a == [] {
      assert a + b == b;
    } else {
      UnitsAppend(a[1..], b);
      assert (a + b)[1..] == a[1..] + b;
    }
  }

  lemma UnitsOfOne(line: string)
    ensures Units([line]) == |EncodeUtf16(line)|
  {
    assert [line][1..] == [] && Units([]) == 0;
  }

  lemma {:induction false} AtMostTwoUnits(s: string)
    ensures |EncodeUtf16(s)| <= 2 * |s|
  {
    if s != "" {
      AtMostTwoUnits(s[1..]);
    }
  }

  /** Splitting creates no units, and one line per line break. */
  lemma {:induction false} SplitIsSmall(s: string)
    ensures |SplitLines(s)| <= |s| + 1 && Units(SplitLines(s)) <= 2 * |s|
  {
    if s == "" {
      UnitsOfOne("");
    } else {
      var rest := SplitLines(s[1..]);
      SplitIsSmall(s[1..]);
      if s[0] == '\n' {
        UnitsAppend([""], rest);
        UnitsOfOne("");
      } else {
        var first := [s[0]] + rest[0];
        UnitsAppend([first], rest[1..]);
        UnitsOfOne(first);
        assert first[1..] == rest[0];
      }
    }
  }

  lemma {:induction false} ReplacedIsShorter(s: string)
    ensures |ReplaceCrLf(s)| <= |s|
  {
    if 2 <= |s| {
      ReplacedIsShorter(s[1..]);
      if s[0] == '\r' && s[1] == '\n' {
        ReplacedIsShorter(s[2..]);
      }
    }
  }

  lemma {:induction false} BytesAreNoFewer(s: string)
    ensures |s| <= |Utf8.Encode(s)|
  {
    if s != "" {
      BytesAreNoFewer(s[1..]);
    }
  }

  lemma DocumentIsSmall(header: string, title: string, content: string, footer: string)
    ensures var lines := DocumentLines(header, title, content, footer);
            |lines| <= |content| + 4 && Units(lines) <= 2 * (|header| + |title| + |content| + |footer|)
  {
    var split := SplitLines(ReplaceCrLf(content));
    var front, end := if header != "" then [header] else [], if footer != "" then [footer] else [];
    ReplacedIsShorter(content);
    SplitIsSmall(ReplaceCrLf(content));
    AtMostTwoUnits(header);
    AtMostTwoUnits(title);
    AtMostTwoUnits(footer);
    UnitsOfOne(header);
    UnitsOfOne(title);
    UnitsOfOne(footer);
    UnitsAppend(front, [title]);
    UnitsAppend(front + [title], split);
    UnitsAppend(front + [title] + split, end);
  }

  /** Far above what any of these texts can be expected to have. */
  const REST: nat := 1_200_000_000

  /**
   * `render` refuses content of more than `maximumContentLimit` bytes, and puts no limit on the other texts. As long as those
   * have at most 1,200,000,000 runes together, every document it makes can be read back.
   */
  lemma RenderedReadsBack(header: string, title: string, content: string, footer: string, watermark: string)
    requires |Utf8.Encode(content)| <= LIMIT && |header| + |title| + |footer| + |watermark| <= REST
    ensures var lines := DocumentLines(header, title, content, footer);
            ReadDocument(Document(lines, watermark)) == Some((lines, watermark))
  {
    BytesAreNoFewer(content);
    DocumentIsSmall(header, title, content, footer);
    AtMostTwoUnits(watermark);
    ReadableExactly(DocumentLines(header, title, content, footer), watermark);
  }

  /** They do need one: a title of two and a half thousand million letters is rendered and cannot be read. */
  lemma LongTitleIsNotReadable(content: string)
    ensures var lines := DocumentLines("", seq(2_500_000_000, _ => 'a'), content, "");
            ReadDocument(Document(lines, "")) == None
  {
    var title := seq(2_500_000_000, _ => 'a');
    var split := SplitLines(ReplaceCrLf(content));
    PlainLength(title);
    UnitsOfOne(title);
    UnitsAppend([title], split);
    assert DocumentLines("", title, content, "") == [title] + split;
    ReadableExactly(DocumentLines("", title, content, ""), "");
  }
}
