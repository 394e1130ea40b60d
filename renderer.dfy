/**
 * `parseMarkdown` of `MarkdownRenderer` (src/App.jsx) as a whole: the line loop of BlockScan with
 * every block's text run through the inline scanner when the block is pushed. The closure's local
 * variables are the fields of `MarkdownScanner`; `flushList` and one loop iteration are its methods.
 * A block whose inline text hangs the scanner makes the whole render hang.
 */
module Renderer {
  import opened Text
  import opened Outcomes
  import opened Inline
  import opened BlockScan
  import opened BlockScanFacts

  /** A rendered element: heading, paragraph, lists, code, rule, quote, and the empty spacer `div`. */
  datatype Block =
    | Heading(level: nat, content: Inline)
    | Paragraph(content: Inline)
    | UnorderedList(items: seq<Inline>)
    | OrderedList(items: seq<Inline>)
    | CodeBlock(language: string, lines: seq<string>)
    | Rule
    | Blockquote(content: Inline)
    | Spacer

  /** The text an inline result was parsed from. */
  function TextOf(c: Inline): string {
    match c
    case Parts(spans) => Source(spans)
    case Raw(text) => text
  }

  function TextsOf(cs: seq<Inline>): (r: seq<string>)
    ensures |r| == |cs|
  {
    if cs == [] then [] else [TextOf(cs[0])] + TextsOf(cs[1..])
  }

  /** Each text is the text of the inline result at the same position. */
  lemma {:induction false} TextsOfAt(cs: seq<Inline>)
    ensures forall k :: 0 <= k < |cs| ==> TextsOf(cs)[k] == TextOf(cs[k])
  {
    if cs != [] {
      TextsOfAt(cs[1..]);
      assert forall k :: 1 <= k < |cs| ==> cs[1..][k - 1] == cs[k];
    }
  }

  /** The raw block an element was built from. */
  function RawOf(b: Block): RawBlock {
    match b
    case Heading(level, c) => RHeading(level, TextOf(c))
    case Paragraph(c) => RParagraph(TextOf(c))
    case UnorderedList(cs) => RList(Bullets, TextsOf(cs))
    case OrderedList(cs) => RList(Numbers, TextsOf(cs))
    case CodeBlock(language, lines) => RCode(language, lines)
    case Rule => RRule
    case Blockquote(c) => RQuote(TextOf(c))
    case Spacer => RSpacer
  }

  /** The texts of a raw block that go through `parseInline`: a list's items, or the one text of a heading, paragraph or quote. */
  function Texts(b: RawBlock): seq<string> {
    match b
    case RHeading(_, text) => [text]
    case RParagraph(text) => [text]
    case RQuote(text) => [text]
    case RList(_, items) => items
    case _ => []
  }

  /** The element of a raw block, given the inline results of its texts. */
  function Build(b: RawBlock, cs: seq<Inline>): Block
    requires |cs| == |Texts(b)|
  {
    match b
    case RHeading(level, _) => Heading(level, cs[0])
    case RParagraph(_) => Paragraph(cs[0])
    case RQuote(_) => Blockquote(cs[0])
    case RList(kind, _) => if kind == Bullets then UnorderedList(cs) else OrderedList(cs)
    case RCode(language, lines) => CodeBlock(language, lines)
    case RRule => Rule
    case RSpacer => Spacer
  }

  /** An inline result gives back the text it was parsed from. */
  lemma TextOfInline(t: string, c: Inline)
    requires InlineOf(t) == Done(c)
    ensures TextOf(c) == t
  {
  }

  /** The parses of a run of texts give back those texts. */
  lemma TextsOfParses(ts: seq<string>, cs: seq<Inline>)
    requires Traverse(ts, InlineOf) == Done(cs)
    ensures TextsOf(cs) == ts
  {
    TraverseDoneAt(ts, InlineOf);
    TextsOfAt(cs);
    forall k | 0 <= k < |cs| ensures TextOf(cs[k]) == ts[k] {
      TextOfInline(ts[k], cs[k]);
    }
  }

  /** Building from the parses of a block's own texts gives back that block. */
  lemma BuildRaw(b: RawBlock, cs: seq<Inline>)
    requires TextsOf(cs) == Texts(b)
    ensures |cs| == |Texts(b)| && RawOf(Build(b, cs)) == b
  {
    if b.RHeading? || b.RParagraph? || b.RQuote? {
      SingleBuild(b, cs);
    } else if b.RList? {
      ListTexts(b, cs);
    } else {
      NoTextBuild(b, cs);
    }
  }

  lemma SingleBuild(b: RawBlock, cs: seq<Inline>)
    requires b.RHeading? || b.RParagraph? || b.RQuote?
    requires TextsOf(cs) == Texts(b)
    ensures |cs| == |Texts(b)| && RawOf(Build(b, cs)) == b
  {
    SingleText(b, cs);
    SingleRaw(b, cs[0]);
    assert cs == [cs[0]];
  }

  /** A heading, paragraph or quote has one text, so its one parse gives that text back. */
  lemma SingleText(b: RawBlock, cs: seq<Inline>)
    requires b.RHeading? || b.RParagraph? || b.RQuote?
    requires TextsOf(cs) == Texts(b)
    ensures |cs| == 1 && TextOf(cs[0]) == b.text
  {
    assert Texts(b) == [b.text];
    assert TextsOf(cs) == [TextOf(cs[0])] + TextsOf(cs[1..]);
    assert TextsOf(cs)[0] == TextOf(cs[0]) && Texts(b)[0] == b.text;
  }

  /** The element built from one parse of a block's one text gives that block back. */
  lemma SingleRaw(b: RawBlock, c: Inline)
    requires b.RHeading? || b.RParagraph? || b.RQuote?
    requires TextOf(c) == b.text
    ensures RawOf(Build(b, [c])) == b
  {
  }

  /** Code blocks, rules and spacers have no text to parse and are built as they are. */
  lemma NoTextBuild(b: RawBlock, cs: seq<Inline>)
    requires b.RCode? || b.RRule? || b.RSpacer?
    requires TextsOf(cs) == Texts(b)
    ensures |cs| == |Texts(b)| && RawOf(Build(b, cs)) == b
  {
    assert Texts(b) == [];
    assert |cs| == |TextsOf(cs)| == 0;
  }

  lemma ListTexts(b: RawBlock, cs: seq<Inline>)
    requires b.RList? && TextsOf(cs) == b.items
    ensures |cs| == |Texts(b)| && RawOf(Build(b, cs)) == b
  {
    assert |cs| == |TextsOf(cs)| == |Texts(b)|;
    if b.kind == Bullets {
      assert Build(b, cs) == UnorderedList(cs);
    } else {
      assert Build(b, cs) == OrderedList(cs);
    }
  }

  /** Building the element of a raw block, with its texts run through `parseInline` in order. */
  function Resolve(b: RawBlock): Outcome<Block> {
    match Traverse(Texts(b), InlineOf)
    case Hangs => Hangs
    case Done(cs) => Done(Build(b, cs))
  }

  /** A built element gives back the raw block it was built from. */
  lemma ResolveRoundTrip(b: RawBlock)
    ensures Resolve(b).Done? ==> RawOf(Resolve(b).value) == b
  {
    var t := Traverse(Texts(b), InlineOf);
    if t.Done? {
      TextsOfParses(Texts(b), t.value);
      BuildRaw(b, t.value);
    }
  }

  /** Building an element hangs exactly when `parseInline` hangs on one of its texts. */
  lemma ResolveHangs(b: RawBlock)
    ensures Resolve(b).Hangs? <==> exists k :: 0 <= k < |Texts(b)| && InlineOf(Texts(b)[k]).Hangs?
  {
    TraverseHangsIff(Texts(b), InlineOf);
  }

  /** What `parseMarkdown(text)` returns, or Hangs when it never returns. */
  function Render(text: string): Outcome<seq<Block>> {
    Traverse(Blocks(SplitLines(text)), Resolve)
  }

  /** `parseInline` over texts in order, as `listItems.map(item => parseInline(item))` does. */
  method ParseAll(texts: seq<string>) returns (r: Outcome<seq<Inline>>)
    ensures r == Traverse(texts, InlineOf)
  {
    var parsed: seq<Inline> := [];
    var j := 0;
    while j < |texts|
      invariant 0 <= j <= |texts|
      invariant Traverse(texts[..j], InlineOf) == Done(parsed)
    {
      var c := ParseInline(texts[j]);
      TraverseStep(texts, j, parsed, InlineOf);
      if c.Hangs? {
        return Hangs;
      }
      parsed := parsed + [c.value];
      j := j + 1;
    }
    assert texts[..j] == texts;
    r := Done(parsed);
  }

  /** Building one element, as the JSX of each branch does it: a heading, paragraph or quote parses its one text. */
  method ResolveBlock(b: RawBlock) returns (r: Outcome<Block>)
    ensures r == Resolve(b)
  {
    var parsed := ParseAll(Texts(b));
    r := if parsed.Hangs? then Hangs else Done(Build(b, parsed.value));
  }

  /** An item of a new list type queues after a flush. */
  lemma AddItemNewKind(st: ScanState, kind: ListKind, text: string)
    requires st.kind != Some(kind)
    ensures AddItem(st, kind, text) == Flush(st).(kind := Some(kind), items := Flush(st).items + [text])
  {
  }

  /** An item of the pending list's type is queued with no flush. */
  lemma AddItemSameKind(st: ScanState, kind: ListKind, text: string)
    requires st.kind == Some(kind)
    ensures AddItem(st, kind, text) == st.(items := st.items + [text])
  {
  }

  /** The local state of one `parseMarkdown` call. */
  class MarkdownScanner {
    var elements: seq<Block>
    var listItems: seq<string>
    var listType: Option<ListKind>
    var codeBlock: Option<seq<string>>
    var codeLanguage: string

    /** The fields hold the state `st` of the line loop, with every pushed block already built. */
    ghost predicate Mirrors(st: ScanState)
      reads this
    {
      Traverse(st.out, Resolve) == Done(elements) &&
      listItems == st.items && listType == st.kind && codeBlock == st.code && codeLanguage == st.lang
    }

    constructor ()
      ensures Mirrors(Initial)
    {
      elements := [];
      listItems := [];
      listType := None;
      codeBlock := None;
      codeLanguage := "";
    }

    /** `elements.push(...)` of the element built from `b`; `out` are the raw blocks behind `elements`. */
    method Push(b: RawBlock, ghost out: seq<RawBlock>) returns (hung: bool)
      requires Traverse(out, Resolve) == Done(elements)
      modifies this
      ensures hung ==> Traverse(out + [b], Resolve).Hangs?
      ensures !hung ==> Traverse(out + [b], Resolve) == Done(elements)
      ensures listItems == old(listItems) && listType == old(listType)
      ensures codeBlock == old(codeBlock) && codeLanguage == old(codeLanguage)
    {
      var r := ResolveBlock(b);
      TraverseSnoc(out, b, Resolve);
      if r.Hangs? {
        return true;
      }
      elements := elements + [r.value];
      hung := false;
    }

    /** `flushList` */
    method FlushList(ghost st: ScanState) returns (hung: bool)
      requires Mirrors(st)
      modifies this
      ensures hung ==> Traverse(Flush(st).out, Resolve).Hangs?
      ensures !hung ==> Mirrors(Flush(st))
    {
      hung := false;
      if |listItems| > 0 {
        hung := Push(RList(if listType == Some(Bullets) then Bullets else Numbers, listItems), st.out);
        if !hung {
          listItems := [];
          listType := None;
        }
      }
    }

    /** Flush the pending list, then push `b`. */
    method FlushAndPush(b: RawBlock, ghost st: ScanState) returns (hung: bool)
      requires Mirrors(st) && st.code.None?
      modifies this
      ensures hung ==> Traverse(Emit(st, b).out, Resolve).Hangs?
      ensures !hung ==> Mirrors(Emit(st, b))
    {
      hung := FlushList(st);
      if hung {
        TraversePrefixHangs(Flush(st).out, Emit(st, b).out, Resolve);
        return;
      }
      hung := Push(b, Flush(st).out);
    }

    /** `listItems.push(text)`, after a flush when the list type changes. */
    method QueueItem(kind: ListKind, text: string, ghost st: ScanState) returns (hung: bool)
      requires Mirrors(st)
      modifies this
      ensures hung ==> Traverse(AddItem(st, kind, text).out, Resolve).Hangs?
      ensures !hung ==> Mirrors(AddItem(st, kind, text))
    {
      hung := false;
      if listType != Some(kind) {
        AddItemNewKind(st, kind, text);
        hung := FlushList(st);
        if hung {
          return;
        }
        SetListType(kind, Flush(st));
        PushItem(text, Flush(st).(kind := Some(kind)));
      } else {
        AddItemSameKind(st, kind, text);
        PushItem(text, st);
      }
    }

    /** `listType = 'ul'` or `listType = 'ol'` */
    method SetListType(kind: ListKind, ghost st: ScanState)
      requires Mirrors(st)
      modifies this
      ensures Mirrors(st.(kind := Some(kind)))
    {
      listType := Some(kind);
    }

    /** `listItems.push(text)` */
    method PushItem(text: string, ghost st: ScanState)
      requires Mirrors(st)
      modifies this
      ensures Mirrors(st.(items := st.items + [text]))
    {
      listItems := listItems + [text];
    }

    /** A fence line: `flushList()`, then a new, empty code block with the captured language. */
    method OpenCode(language: string, ghost st: ScanState) returns (hung: bool)
      requires Mirrors(st)
      modifies this
      ensures hung ==> Traverse(Flush(st).out, Resolve).Hangs?
      ensures !hung ==> Mirrors(Flush(st).(code := Some([]), lang := language))
    {
      hung := FlushList(st);
      if !hung {
        codeLanguage := language;
        codeBlock := Some([]);
      }
    }

    /** A line inside an open code block joins it. */
    method AddCodeLine(line: string, ghost st: ScanState)
      requires Mirrors(st) && st.code.Some?
      modifies this
      ensures Mirrors(st.(code := Some(st.code.value + [line])))
    {
      codeBlock := Some(codeBlock.value + [line]);
    }

    /** The branches of one iteration after the fence test, with no code block open. */
    method ScanOutside(kind: LineKind, ghost st: ScanState) returns (hung: bool)
      requires Mirrors(st) && st.code.None? && !kind.FenceLine?
      modifies this
      ensures hung ==> Traverse(Outside(st, kind).out, Resolve).Hangs?
      ensures !hung ==> Mirrors(Outside(st, kind))
    {
      match kind {
        case HeadingLine(level, text) => hung := FlushAndPush(RHeading(level, text), st);
        case BulletLine(text) => hung := QueueItem(Bullets, text, st);
        case NumberedLine(text) => hung := QueueItem(Numbers, text, st);
        case RuleLine => hung := FlushAndPush(RRule, st);
        case QuoteLine(text) => hung := FlushAndPush(RQuote(text), st);
        case BlankLine => hung := FlushAndPush(RSpacer, st);
        case ParagraphLine(text) => hung := FlushAndPush(RParagraph(text), st);
      }
    }

    /**
     * One iteration of the `while (i < lines.length)` loop, its branches in the source's order, on a line
     * of kind `kind`: only a line starting with three backticks is a fence line, so "```" is one.
     */
    method ScanLine(line: string, kind: LineKind, ghost st: ScanState) returns (hung: bool)
      requires Mirrors(st) && (line == "```" ==> kind.FenceLine?)
      modifies this
      ensures hung ==> Traverse(StepKind(st, line, kind).out, Resolve).Hangs?
      ensures !hung ==> Mirrors(StepKind(st, line, kind))
    {
      if kind.FenceLine? {
        hung := OpenCode(kind.language, st);
      } else if codeBlock.Some? && line == "```" {
        // The closing fence: every line starting with three backticks was taken above.
        assert false;
      } else if codeBlock.Some? {
        AddCodeLine(line, st);
        hung := false;
      } else {
        hung := ScanOutside(kind, st);
      }
    }
  }

  /** A line whose elements hang makes the whole rendering hang, whatever the later lines hold. */
  lemma StepHangs(lines: seq<string>, i: nat)
    requires i < |lines| && Traverse(Step(Fold(lines[..i]), lines[i]).out, Resolve).Hangs?
    ensures Traverse(Blocks(lines), Resolve).Hangs?
  {
    FoldStep(lines, i);
    PrefixBlocks(lines, i + 1);
    TraversePrefixHangs(Fold(lines[..i + 1]).out, Blocks(lines), Resolve);
  }

  /** `parseMarkdown(text)`: Hangs stands for a call that never returns. */
  method ParseMarkdown(text: string) returns (r: Outcome<seq<Block>>)
    ensures r == Render(text)
  {
    var lines := SplitLines(text);
    var scanner := new MarkdownScanner();
    var i := 0;
    while i < |lines|
      invariant 0 <= i <= |lines|
      invariant scanner.Mirrors(Fold(lines[..i]))
    {
      var kind := Classify(lines[i]);
      FenceKind(lines[i]);
      var hung := scanner.ScanLine(lines[i], kind, Fold(lines[..i]));
      if hung {
        StepHangs(lines, i);
        return Hangs;
      }
      FoldStep(lines, i);
      i := i + 1;
    }
    assert lines[..i] == lines;
    var hung := scanner.FlushList(Fold(lines));
    if hung {
      return Hangs;
    }
    r := Done(scanner.elements);
  }
}
