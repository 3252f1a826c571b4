/**
 * The content stream of a rendered document (providers/document_generation/pdf/renderer.go:14-28) and its reader: an
 * optional grey watermark, then the text lines.
 */
module PdfContent {
  import opened GoStrings
  import opened Bytes
  import opened PdfText

  /** The operators of the content stream, as the writer spells them. */
  datatype Operators = Operators(
    prologue: seq<byte>, grey: seq<byte>, leaveGrey: seq<byte>, show: seq<byte>, nextLine: seq<byte>, epilogue: seq<byte>)
  {
    /** What the reader needs to tell them apart: 60 is the `<` a hexadecimal string starts with. */
    predicate Distinct() {
      && grey != [] && grey[0] != 60
      && nextLine != [] && epilogue != [] && nextLine[0] != epilogue[0]
    }
  }

  const OPERATORS := Operators(
    Ascii("BT\n/F1 12 Tf\n50 790 Td\n16 TL\n"), Ascii("0.85 g\n"), Ascii(" Tj\n0 g\n0 -32 Td\n"), Ascii(" Tj\n"),
    Ascii("T*\n"), Ascii("ET\n"))

  function Watermark(ops: Operators, watermark: string): (r: seq<byte>) {
    if watermark == "" then [] else ops.grey + PdfHexOf(watermark) + ops.leaveGrey
  }

  function Shown(ops: Operators, line: string): (r: seq<byte>) {
    PdfHexOf(line) + ops.show
  }

  /** The text lines, a new line before each but the first. */
  function TextLines(ops: Operators, lines: seq<string>): (r: seq<byte>) {
    if lines == [] then []
    else if |lines| == 1 then Shown(ops, lines[0])
    else Shown(ops, lines[0]) + ops.nextLine + TextLines(ops, lines[1..])
  }

  function Content(ops: Operators, lines: seq<string>, watermark: string): (r: seq<byte>) {
    ops.prologue + Watermark(ops, watermark) + TextLines(ops, lines) + ops.epilogue
  }

  /** One or more shown strings, separated by line breaks, up to the end of the text object. */
  function ReadLines(ops: Operators, s: seq<byte>): Option<seq<string>>
    decreases |s|
  {
    match ReadHexString(s)
    case None => None
    case Some((line, rest)) =>
      match Expect(ops.show, rest)
      case None => None
      case Some(after) =>
        if after == ops.epilogue then Some([line])
        else
          match Expect(ops.nextLine, after)
          case None => None
          case Some(next) =>
            if |s| <= |next| then None
            else
              match ReadLines(ops, next)
              case None => None
              case Some(lines) => Some([line] + lines)
  }

  /** The body of the text object: a watermark if it starts in grey, then the lines. */
  function ReadBody(ops: Operators, body: seq<byte>): Option<(seq<string>, string)> {
    match Expect(ops.grey, body)
    case None => (match ReadLines(ops, body) case None => None case Some(lines) => Some((lines, "")))
    case Some(grey) =>
      match ReadHexString(grey)
      case None => None
      case Some((watermark, rest)) =>
        match Expect(ops.leaveGrey, rest)
        case None => None
        case Some(text) => (match ReadLines(ops, text) case None => None case Some(lines) => Some((lines, watermark)))
  }

  function ReadContent(ops: Operators, s: seq<byte>): Option<(seq<string>, string)> {
    match Expect(ops.prologue, s)
    case None => None
    case Some(body) => ReadBody(ops, body)
  }

  lemma {:induction false} TextLinesAppend(ops: Operators, lines: seq<string>, line: string)
    ensures TextLines(ops, lines + [line])
         == TextLines(ops, lines) + (if lines == [] then [] else ops.nextLine) + Shown(ops, line)
  {
    if 1 < |lines| {
      TextLinesAppend(ops, lines[1..], line);
      assert (lines + [line])[1..] == lines[1..] + [line];
      Regroup(Shown(ops, lines[0]) + ops.nextLine, TextLines(ops, lines[1..]), ops.nextLine, Shown(ops, line));
    } else if |lines| == 1 {
      assert (lines + [line])[1..] == [line];
    } else {
      assert lines + [line] == [line];
    }
  }

  lemma Regroup(a: seq<byte>, b: seq<byte>, c: seq<byte>, d: seq<byte>)
    ensures a + (b + c + d) == a + b + c + d
  {
  }

  lemma ReadOwnShown(ops: Operators, line: string, after: seq<byte>)
    ensures ReadHexString(Shown(ops, line) + after) == Some((line, ops.show + after))
    ensures Expect(ops.show, ops.show + after) == Some(after)
    ensures (Shown(ops, line) + after)[0] == 60 && |after| < |Shown(ops, line) + after|
  {
    assert Shown(ops, line) + after == PdfHexOf(line) + (ops.show + after);
    HexStringRoundTrip(line, ops.show + after);
    ExpectOwn(ops.show, after);
  }

  lemma ReadFirstLine(ops: Operators, line: string, next: seq<byte>)
    requires ops.Distinct()
    ensures ReadLines(ops, Shown(ops, line) + (ops.nextLine + next))
         == (match ReadLines(ops, next) case None => None case Some(lines) => Some([line] + lines))
  {
    var after := ops.nextLine + next;
    ReadOwnShown(ops, line, after);
    assert after[0] == ops.nextLine[0];
    ExpectOwn(ops.nextLine, next);
  }

  lemma {:induction false} ReadOwnLines(ops: Operators, lines: seq<string>)
    requires ops.Distinct() && lines != []
    ensures ReadLines(ops, TextLines(ops, lines) + ops.epilogue) == Some(lines)
    ensures (TextLines(ops, lines) + ops.epilogue)[0] == 60
  {
    if |lines| == 1 {
      ReadOwnShown(ops, lines[0], ops.epilogue);
      assert lines == [lines[0]];
    } else {
      ReadOwnLines(ops, lines[1..]);
      ManyLines(ops, lines, ops.epilogue);
      FirstOfMany(ops, lines[0], lines[1..], TextLines(ops, lines[1..]) + ops.epilogue);
      assert lines == [lines[0]] + lines[1..];
    }
  }

  lemma ManyLines(ops: Operators, lines: seq<string>, end: seq<byte>)
    requires 2 <= |lines|
    ensures TextLines(ops, lines) + end == Shown(ops, lines[0]) + (ops.nextLine + (TextLines(ops, lines[1..]) + end))
  {
    Regroup2(Shown(ops, lines[0]), ops.nextLine, TextLines(ops, lines[1..]), end);
  }

  lemma FirstOfMany(ops: Operators, line: string, lines: seq<string>, next: seq<byte>)
    requires ops.Distinct() && ReadLines(ops, next) == Some(lines)
    ensures ReadLines(ops, Shown(ops, line) + (ops.nextLine + next)) == Some([line] + lines)
    ensures (Shown(ops, line) + (ops.nextLine + next))[0] == 60
  {
    ReadOwnShown(ops, line, ops.nextLine + next);
    ReadFirstLine(ops, line, next);
  }

  lemma Regroup2(a: seq<byte>, b: seq<byte>, c: seq<byte>, d: seq<byte>)
    ensures a + b + c + d == a + (b + (c + d))
  {
  }

  lemma ReadOwnWatermark(ops: Operators, watermark: string, text: seq<byte>)
    requires watermark != ""
    ensures Expect(ops.grey, Watermark(ops, watermark) + text) == Some(PdfHexOf(watermark) + (ops.leaveGrey + text))
    ensures ReadHexString(PdfHexOf(watermark) + (ops.leaveGrey + text)) == Some((watermark, ops.leaveGrey + text))
    ensures Expect(ops.leaveGrey, ops.leaveGrey + text) == Some(text)
  {
    var rest := ops.leaveGrey + text;
    assert Watermark(ops, watermark) + text == ops.grey + (PdfHexOf(watermark) + rest);
    ExpectOwn(ops.grey, PdfHexOf(watermark) + rest);
    HexStringRoundTrip(watermark, rest);
    ExpectOwn(ops.leaveGrey, text);
  }

  lemma BodyRoundTrip(ops: Operators, lines: seq<string>, watermark: string, text: seq<byte>)
    requires ops.Distinct() && text != [] && text[0] == 60 && ReadLines(ops, text) == Some(lines)
    ensures ReadBody(ops, Watermark(ops, watermark) + text) == Some((lines, watermark))
  {
    if watermark == "" {
      assert Watermark(ops, watermark) + text == text;
    } else {
      ReadOwnWatermark(ops, watermark, text);
    }
  }

  lemma ReadAfterPrologue(ops: Operators, body: seq<byte>)
    ensures ReadContent(ops, ops.prologue + body) == ReadBody(ops, body)
  {
    ExpectOwn(ops.prologue, body);
  }

  lemma ContentRoundTrip(ops: Operators, lines: seq<string>, watermark: string)
    requires ops.Distinct() && lines != []
    ensures ReadContent(ops, Content(ops, lines, watermark)) == Some((lines, watermark))
  {
    var text := TextLines(ops, lines) + ops.epilogue;
    Regroup2(ops.prologue, Watermark(ops, watermark), TextLines(ops, lines), ops.epilogue);
    ReadOwnLines(ops, lines);
    BodyRoundTrip(ops, lines, watermark, text);
    ReadAfterPrologue(ops, Watermark(ops, watermark) + text);
  }
}
