/**
 * The HTML text extractor (internal/textcontent/html.go:13-69) over the tokenizer's tokens: ignored elements are skipped by
 * counting how deep their own tag is nested.
 */
module HtmlText {
  import opened GoStrings

  datatype Token = StartTag(name: string) | SelfClosing(name: string) | EndTag(name: string) | TextToken(text: string)

  /** How the token stream ends: at the end of the source, or with a tokenizer error. */
  datatype End = Eof | Broken

  /** What a tag name means to the extractor: ignored elements, tags that break the line, and tags that end a table cell. */
  datatype Tags = Tags(ignored: set<string>, opensLine: set<string>, closesLine: set<string>, closesCell: set<string>) {
    predicate Sound() {
      "" !in ignored
    }
  }

  const HTML := Tags(
    {"head", "script", "style", "template", "svg", "object", "iframe"},
    {"br", "p", "div", "li", "tr", "table", "blockquote", "h1", "h2", "h3", "hr"},
    {"p", "div", "li", "tr", "table", "blockquote", "h1", "h2", "h3"},
    {"td", "th"})

  // ---- The machine ----

  datatype State = State(ignored: string, depth: nat, out: string)

  const INITIAL := State("", 0, "")

  /** What a token contributes outside ignored elements. */
  function Rendered(tags: Tags, t: Token): string {
    match t
    case StartTag(name) => if name in tags.ignored then "" else if name in tags.opensLine then "\n" else ""
    case SelfClosing(name) => if name in tags.ignored then "" else if name in tags.opensLine then "\n" else ""
    case EndTag(name) => if name in tags.closesLine then "\n" else if name in tags.closesCell then "\t" else ""
    case TextToken(text) => text
  }

  /** For the tags of HTML: which start or single tags, and which end tags, leave a line break or a tab. */
  lemma RenderedIs(name: string, text: string)
    ensures Rendered(HTML, StartTag(name)) == Rendered(HTML, SelfClosing(name))
         == if name in ["br", "p", "div", "li", "tr", "table", "blockquote", "h1", "h2", "h3", "hr"] then "\n" else ""
    ensures Rendered(HTML, EndTag(name))
         == if name in ["p", "div", "li", "tr", "table", "blockquote", "h1", "h2", "h3"] then "\n"
            else if name in ["td", "th"] then "\t" else ""
    ensures Rendered(HTML, TextToken(text)) == text
    ensures name in HTML.ignored <==> name in ["head", "script", "style", "template", "svg", "object", "iframe"]
  {
  }

  function Step(tags: Tags, s: State, t: Token): State {
    if s.ignored != "" then
      match t
      case StartTag(name) => if name == s.ignored then s.(depth := s.depth + 1) else s
      case EndTag(name) =>
        if name != s.ignored then s
        else if s.depth <= 1 then s.(ignored := "", depth := 0)
        else s.(depth := s.depth - 1)
      case _ => s
    else if t.StartTag? && t.name in tags.ignored then s.(ignored := t.name, depth := 1)
    else s.(out := s.out + Rendered(tags, t))
  }

  function Run(tags: Tags, s: State, tokens: seq<Token>): State {
    if tokens == [] then s else Step(tags, Run(tags, s, tokens[..|tokens| - 1]), tokens[|tokens| - 1])
  }

  function Extract(tags: Tags, tokens: seq<Token>, end: End): Option<string> {
    var s := Run(tags, INITIAL, tokens);
    if end == Broken || s.ignored != "" then None else Some(s.out)
  }

  method HTMLText(tags: Tags, tokens: seq<Token>, end: End) returns (r: Option<string>)
    requires tags.Sound()
    ensures r == Extract(tags, tokens, end)
  {
    var out, ignored := "", "";
    var depth: int := 0;
    for k := 0 to |tokens|
      invariant 0 <= depth && (0 < depth <==> ignored != "")
      invariant Run(tags, INITIAL, tokens[..k]) == State(ignored, depth, out)
    {
      assert tokens[..k + 1][..k] == tokens[..k];
      match tokens[k] {
        case StartTag(tag) =>
          if ignored != "" {
            if tag == ignored {
              depth := depth + 1;
            }
            continue;
          }
          if tag in tags.ignored {
            ignored := tag;
            depth := 1;
          } else if tag in tags.opensLine {
            out := out + "\n";
          }
        case SelfClosing(tag) =>
          if ignored != "" {
            continue;
          }
          if tag !in tags.ignored && tag in tags.opensLine {
            out := out + "\n";
          }
        case EndTag(tag) =>
          if ignored != "" {
            if tag == ignored {
              depth := depth - 1;
              if depth == 0 {
                ignored := "";
              }
            }
            continue;
          }
          if tag in tags.closesLine {
            out := out + "\n";
          } else if tag in tags.closesCell {
            out := out + "\t";
          }
        case TextToken(text) =>
          if ignored == "" {
            out := out + text;
          }
      }
    }
    assert tokens[..|tokens|] == tokens;
    if end == Broken || ignored != "" {
      return None;
    }
    return Some(out);
  }

  // ---- What every run keeps ----

  /** An ignored tag is set exactly while the depth is positive, and it is one of the ignored ones. */
  lemma {:induction false} IgnoredWhileDeep(tags: Tags, tokens: seq<Token>)
    requires tags.Sound()
    ensures var s := Run(tags, INITIAL, tokens); (s.ignored != "" <==> 0 < s.depth) && (s.ignored != "" ==> s.ignored in tags.ignored)
  {
    if tokens != [] {
      IgnoredWhileDeep(tags, tokens[..|tokens| - 1]);
    }
  }

  lemma {:induction false} RunCompose(tags: Tags, s: State, a: seq<Token>, b: seq<Token>)
    ensures Run(tags, s, a + b) == Run(tags, Run(tags, s, a), b)
  {
    if b == [] {
      assert a + b == a;
    } else {
      RunCompose(tags, s, a, b[..|b| - 1]);
      assert (a + b)[..|a + b| - 1] == a + b[..|b| - 1];
    }
  }

  // ---- Balanced elements ----

  /** Start tags minus end tags of one name; self-closing tags do not count. */
  function Balance(tokens: seq<Token>, name: string): int {
    if tokens == [] then 0
    else
      var last := tokens[|tokens| - 1];
      Balance(tokens[..|tokens| - 1], name)
      + (if last == StartTag(name) then 1 else if last == EndTag(name) then -1 else 0)
  }

  /** Opens `name`, and closes it with its last token and not before; anything else may stand inside. */
  predicate IsElement(tokens: seq<Token>, name: string) {
    && tokens != [] && tokens[0] == StartTag(name)
    && Balance(tokens, name) == 0
    && forall k :: 0 < k < |tokens| ==> 0 < Balance(tokens[..k], name)
  }

  /** Inside an element the depth is the balance so far, and nothing is written. */
  lemma {:induction false} InsideElement(tags: Tags, s: State, tokens: seq<Token>, name: string, n: nat)
    requires tags.Sound()
    requires s.ignored == "" && s.depth == 0 && name in tags.ignored && 0 < n <= |tokens| && tokens[0] == StartTag(name)
    requires forall k :: 0 < k < n ==> 0 < Balance(tokens[..k], name)
    ensures 0 <= Balance(tokens[..n], name)
    ensures Run(tags, s, tokens[..n]) == (if Balance(tokens[..n], name) == 0 then s else State(name, Balance(tokens[..n], name), s.out))
  {
    assert tokens[..n][..n - 1] == tokens[..n - 1];
    if n == 1 {
      assert tokens[..0] == [];
      assert Balance(tokens[..1], name) == 1;
    } else {
      InsideElement(tags, s, tokens, name, n - 1);
    }
  }

  /** An ignored element, inserted where nothing is being ignored, leaves no trace. */
  lemma ElementLeavesNoTrace(tags: Tags, before: seq<Token>, element: seq<Token>, name: string, after: seq<Token>, end: End)
    requires tags.Sound()
    requires name in tags.ignored && IsElement(element, name) && Run(tags, INITIAL, before).ignored == ""
    ensures Extract(tags, before + element + after, end) == Extract(tags, before + after, end)
  {
    var s := Run(tags, INITIAL, before);
    IgnoredWhileDeep(tags, before);
    assert element[..|element|] == element;
    InsideElement(tags, s, element, name, |element|);
    RunCompose(tags, INITIAL, before, element);
    RunCompose(tags, INITIAL, before + element, after);
    RunCompose(tags, INITIAL, before, after);
  }

  /** A stream that ends inside an ignored element is an error, however it ends. */
  lemma UnclosedElementIsAnError(tags: Tags, before: seq<Token>, rest: seq<Token>, name: string, end: End)
    requires tags.Sound()
    requires name in tags.ignored && Run(tags, INITIAL, before).ignored == "" && rest != [] && rest[0] == StartTag(name)
    requires forall k :: 0 < k <= |rest| ==> 0 < Balance(rest[..k], name)
    ensures Extract(tags, before + rest, end) == None
  {
    var s := Run(tags, INITIAL, before);
    IgnoredWhileDeep(tags, before);
    assert rest[..|rest|] == rest;
    InsideElement(tags, s, rest, name, |rest|);
    RunCompose(tags, INITIAL, before, rest);
  }

  // ---- The declarative reading ----

  /** The length of the ignored element `tokens` starts with, or None when it is never closed. */
  function ElementLength(tokens: seq<Token>, name: string, k: nat): Option<nat>
    requires k <= |tokens|
    decreases |tokens| - k
  {
    if 0 < k && Balance(tokens[..k], name) <= 0 then Some(k)
    else if k == |tokens| then None
    else ElementLength(tokens, name, k + 1)
  }

  lemma {:induction false} ElementLengthIsFirst(tokens: seq<Token>, name: string, k: nat)
    requires 0 < k <= |tokens| && tokens[0] == StartTag(name)
    requires forall m :: 0 < m < k ==> 0 < Balance(tokens[..m], name)
    ensures match ElementLength(tokens, name, k)
            case None => forall m :: 0 < m <= |tokens| ==> 0 < Balance(tokens[..m], name)
            case Some(n) => k <= n <= |tokens| && Balance(tokens[..n], name) <= 0
                            && forall m :: 0 < m < n ==> 0 < Balance(tokens[..m], name)
    decreases |tokens| - k
  {
    if 0 < Balance(tokens[..k], name) && k < |tokens| {
      ElementLengthIsFirst(tokens, name, k + 1);
    }
  }

  /** The text of the tokens outside ignored elements, or None when one of them is not closed. */
  function Visible(tags: Tags, tokens: seq<Token>): Option<string>
    decreases |tokens|
  {
    if tokens == [] then Some("")
    else if tokens[0].StartTag? && tokens[0].name in tags.ignored then
      match ElementLength(tokens, tokens[0].name, 0)
      case None => None
      case Some(n) => if 0 < n <= |tokens| then Visible(tags, tokens[n..]) else None
    else
      match Visible(tags, tokens[1..])
      case None => None
      case Some(rest) => Some(Rendered(tags, tokens[0]) + rest)
  }

  lemma RunOverUnclosed(tags: Tags, s: State, tokens: seq<Token>, name: string)
    requires tags.Sound()
    requires s.ignored == "" && s.depth == 0 && name in tags.ignored && tokens != [] && tokens[0] == StartTag(name)
    requires forall m :: 0 < m <= |tokens| ==> 0 < Balance(tokens[..m], name)
    ensures Run(tags, s, tokens).ignored != ""
  {
    assert tokens[..|tokens|] == tokens;
    InsideElement(tags, s, tokens, name, |tokens|);
  }

  lemma RunOverClosed(tags: Tags, s: State, tokens: seq<Token>, name: string, n: nat)
    requires tags.Sound()
    requires s.ignored == "" && s.depth == 0 && name in tags.ignored && tokens != [] && tokens[0] == StartTag(name)
    requires 0 < n <= |tokens| && Balance(tokens[..n], name) <= 0 && forall m :: 0 < m < n ==> 0 < Balance(tokens[..m], name)
    ensures Run(tags, s, tokens) == Run(tags, s, tokens[n..])
  {
    InsideElement(tags, s, tokens, name, n);
    RunSplit(tags, s, tokens, n);
  }

  lemma RunSplit(tags: Tags, s: State, tokens: seq<Token>, n: nat)
    requires n <= |tokens|
    ensures Run(tags, s, tokens) == Run(tags, Run(tags, s, tokens[..n]), tokens[n..])
  {
    assert tokens == tokens[..n] + tokens[n..];
    RunCompose(tags, s, tokens[..n], tokens[n..]);
  }

  lemma ElementStarts(tokens: seq<Token>, name: string)
    requires tokens != [] && tokens[0] == StartTag(name)
    ensures ElementLength(tokens, name, 0) == ElementLength(tokens, name, 1) && 0 < Balance(tokens[..1], name)
  {
    assert tokens[..1] == [tokens[0]] && [tokens[0]][..0] == [];
    assert Balance([tokens[0]], name) == Balance([], name) + 1;
  }

  /** The two ways an ignored element can go. */
  lemma RunOverElement(tags: Tags, s: State, tokens: seq<Token>, name: string)
    requires tags.Sound()
    requires s.ignored == "" && s.depth == 0 && name in tags.ignored && tokens != [] && tokens[0] == StartTag(name)
    ensures match ElementLength(tokens, name, 0)
            case None => Run(tags, s, tokens).ignored != ""
            case Some(n) => 0 < n <= |tokens| && Run(tags, s, tokens) == Run(tags, s, tokens[n..])
  {
    ElementStarts(tokens, name);
    ElementLengthIsFirst(tokens, name, 1);
    var length := ElementLength(tokens, name, 1);
    if length.None? {
      RunOverUnclosed(tags, s, tokens, name);
    } else {
      RunOverClosed(tags, s, tokens, name, length.value);
    }
  }

  lemma RunOverToken(tags: Tags, s: State, tokens: seq<Token>)
    requires tags.Sound()
    requires s.ignored == "" && tokens != [] && !(tokens[0].StartTag? && tokens[0].name in tags.ignored)
    ensures Run(tags, s, tokens) == Run(tags, s.(out := s.out + Rendered(tags, tokens[0])), tokens[1..])
  {
    var first := [tokens[0]];
    assert tokens == first + tokens[1..] && first[..0] == [];
    RunCompose(tags, s, first, tokens[1..]);
  }

  /** The machine computes exactly that, whatever was written before. */
  lemma {:induction false} RunIsVisible(tags: Tags, s: State, tokens: seq<Token>)
    requires tags.Sound()
    requires s.ignored == "" && s.depth == 0
    ensures match Visible(tags, tokens)
            case None => Run(tags, s, tokens).ignored != ""
            case Some(text) => Run(tags, s, tokens) == s.(out := s.out + text)
    decreases |tokens|
  {
    if tokens == [] {
      assert s.out + "" == s.out;
    } else if tokens[0].StartTag? && tokens[0].name in tags.ignored {
      RunOverElement(tags, s, tokens, tokens[0].name);
      var length := ElementLength(tokens, tokens[0].name, 0);
      if length.Some? {
        RunIsVisible(tags, s, tokens[length.value..]);
      }
    } else {
      var next := s.(out := s.out + Rendered(tags, tokens[0]));
      RunOverToken(tags, s, tokens);
      RunIsVisible(tags, next, tokens[1..]);
      if Visible(tags, tokens[1..]).Some? {
        var rest := Visible(tags, tokens[1..]).value;
        assert s.out + Rendered(tags, tokens[0]) + rest == s.out + (Rendered(tags, tokens[0]) + rest);
      }
    }
  }

  /** So the extractor returns the text outside ignored elements, and an error exactly when one of them is not closed. */
  lemma ExtractIsVisible(tags: Tags, tokens: seq<Token>, end: End)
    requires tags.Sound()
    ensures Extract(tags, tokens, end) == if end == Broken then None else Visible(tags, tokens)
  {
    RunIsVisible(tags, INITIAL, tokens);
    if Visible(tags, tokens).Some? {
      assert "" + Visible(tags, tokens).value == Visible(tags, tokens).value;
    }
  }

  /** In particular for the tags of HTML. */
  lemma HtmlIsVisible(tokens: seq<Token>, end: End)
    ensures Extract(HTML, tokens, end) == if end == Broken then None else Visible(HTML, tokens)
  {
    assert HTML.Sound();
    ExtractIsVisible(HTML, tokens, end);
  }
}
