/** What `parseMarkdown` as a whole returns: its relation to the raw blocks of the line loop, and its edge cases. */
module RendererFacts {
  import opened Text
  import opened Outcomes
  import opened Inline
  import opened BlockScan
  import opened BlockScanFacts
  import opened Renderer
  import opened InlineFacts

  /** Some line starts with three backticks, which opens a code block that never closes. */
  predicate HasFence(lines: seq<string>) {
    exists k :: 0 <= k < |lines| && StartsWith(lines[k], "```")
  }

  /** A spacer or rule has no text to parse and is built as it is. */
  lemma ResolvePlain(b: RawBlock)
    requires b.RSpacer? || b.RRule?
    ensures Resolve(b) == Done(if b.RSpacer? then Spacer else Rule)
  {
  }

  /** `es` are the elements built from the raw blocks `bs`, one for one, and none is a code block. */
  predicate BuiltFrom(es: seq<Block>, bs: seq<RawBlock>) {
    |es| == |bs| && forall k :: 0 <= k < |bs| ==> RawOf(es[k]) == bs[k] && !es[k].CodeBlock?
  }

  /** Building good raw blocks with a builder that can be undone gives one element per block, built from it, and never a code block. */
  lemma BuildAllRaw(bs: seq<RawBlock>, build: RawBlock -> Outcome<Block>)
    requires Traverse(bs, build).Done? && forall k :: 0 <= k < |bs| ==> !bs[k].RCode?
    requires forall b :: build(b).Done? ==> RawOf(build(b).value) == b
    ensures BuiltFrom(Traverse(bs, build).value, bs)
  {
    var es := Traverse(bs, build).value;
    TraverseDoneAt(bs, build);
    forall k | 0 <= k < |bs| ensures RawOf(es[k]) == bs[k] && !es[k].CodeBlock? {
      assert build(bs[k]) == Done(es[k]);
      NotCode(es[k], bs[k]);
    }
  }

  lemma NotCode(e: Block, b: RawBlock)
    requires RawOf(e) == b && !b.RCode?
    ensures !e.CodeBlock?
  {
  }

  /** `Resolve` can be undone on every raw block. */
  lemma ResolveUndone()
    ensures forall b :: Resolve(b).Done? ==> RawOf(Resolve(b).value) == b
  {
    forall b ensures Resolve(b).Done? ==> RawOf(Resolve(b).value) == b {
      ResolveRoundTrip(b);
    }
  }

  /** Every rendered element is built from the raw block at the same position, and none is a code block. */
  lemma RenderIsBlocks(text: string)
    requires Render(text).Done?
    ensures BuiltFrom(Render(text).value, Blocks(SplitLines(text)))
  {
    NoCodeBlocks(SplitLines(text));
    ResolveUndone();
    BuildAllRaw(Blocks(SplitLines(text)), Resolve);
  }

  /** `parseInline` hangs on a text of one of the raw blocks. */
  predicate SomeTextHangs(bs: seq<RawBlock>) {
    exists k, j :: 0 <= k < |bs| && 0 <= j < |Texts(bs[k])| && InlineOf(Texts(bs[k])[j]).Hangs?
  }

  /** Building a run of raw blocks hangs exactly when `parseInline` hangs on a text of one of them. */
  lemma ResolveAllHangs(bs: seq<RawBlock>)
    ensures Traverse(bs, Resolve).Hangs? <==> SomeTextHangs(bs)
  {
    TraverseHangsIff(bs, Resolve);
    forall k | 0 <= k < |bs| ensures Resolve(bs[k]).Hangs? <==>
      exists j :: 0 <= j < |Texts(bs[k])| && InlineOf(Texts(bs[k])[j]).Hangs?
    {
      ResolveHangs(bs[k]);
    }
  }

  /** `parseMarkdown` hangs exactly when `parseInline` hangs on a text of one of the raw blocks. */
  lemma RenderHangs(text: string)
    ensures Render(text).Hangs? <==> SomeTextHangs(Blocks(SplitLines(text)))
  {
    ResolveAllHangs(Blocks(SplitLines(text)));
  }

  /** The one-line message "a * b" is a paragraph whose text hangs `parseInline`, so `parseMarkdown` never returns. */
  lemma StarMessageHangs()
    ensures Render("a * b").Hangs?
  {
    var line := "a * b";
    StarLine();
    OneParagraph(line);
    StarWithoutPartnerHangs();
    assert Texts(RParagraph(line))[0] == line;
    RenderHangs(line);
  }

  lemma StarLine()
    ensures SplitLines("a * b") == ["a * b"] && Classify("a * b") == ParagraphLine("a * b")
  {
    var line := "a * b";
    assert '\n' !in line;
    assert !StartsWith(line, "```") by { assert line[..3][0] == 'a'; }
    assert Run(line, 0, IsHash) == 0 && Run(line, 0, IsDigit) == 0;
    assert !IsBlank(line) by { assert !IsSpace(line[0]); }
  }

  /** A single line classified as a paragraph is one paragraph block. */
  lemma OneParagraph(line: string)
    requires Classify(line) == ParagraphLine(line)
    ensures Blocks([line]) == [RParagraph(line)]
  {
    assert [line][..0] == [];
    assert FoldFrom(Initial, [line]) == Step(FoldFrom(Initial, [line][..0]), line);
    assert FoldFrom(Initial, []) == Initial;
    assert Step(Initial, line) == Emit(Initial, RParagraph(line));
  }

  /** The empty message is one empty line, which renders as a single spacer. */
  lemma RenderEmpty()
    ensures Render("") == Done([Spacer])
  {
    assert SplitLines("") == [""];
    SingleEmptyLine();
    ResolvePlain(RSpacer);
    var none: seq<RawBlock> := [];
    TraverseSnoc(none, RSpacer, Resolve);
    assert none + [RSpacer] == [RSpacer];
    var built: seq<Block> := [];
    assert built + [Spacer] == [Spacer];
  }

  /** `Render` with one more element appended, when it finishes. */
  function Snoc<T>(o: Outcome<seq<T>>, x: T): Outcome<seq<T>> {
    match o
    case Hangs => Hangs
    case Done(xs) => Done(xs + [x])
  }

  /** A trailing newline adds one trailing spacer, unless a fence line has already swallowed the rest of the text. */
  lemma RenderTrailingNewline(text: string)
    ensures Render(text + "\n") ==
      if HasFence(SplitLines(text)) then Render(text) else Snoc(Render(text), Spacer)
  {
    var lines := SplitLines(text);
    SplitTrailingNewline(text);
    TrailingBlankLine(lines);
    CodeOpenIff(lines);
    if !HasFence(lines) {
      ResolvePlain(RSpacer);
      TraverseSnoc(Blocks(lines), RSpacer, Resolve);
    }
  }

  /** The text of lines that hold no newline renders as the blocks of those very lines. */
  lemma RenderLines(lines: seq<string>)
    requires |lines| >= 1 && forall k :: 0 <= k < |lines| ==> '\n' !in lines[k]
    ensures Render(JoinLines(lines)) == Traverse(Blocks(lines), Resolve)
  {
    SplitJoin(lines);
  }

  lemma NoNewlineAround(pre: seq<string>, line: string, post: seq<string>)
    requires '\n' !in line
    requires forall k :: 0 <= k < |pre| ==> '\n' !in pre[k]
    requires forall k :: 0 <= k < |post| ==> '\n' !in post[k]
    ensures forall k :: 0 <= k < |pre + [line] + post| ==> '\n' !in (pre + [line] + post)[k]
  {
    var all := pre + [line] + post;
    forall k | 0 <= k < |all| ensures '\n' !in all[k] {
      if k < |pre| {
        assert all[k] == pre[k];
      } else if k > |pre| {
        assert all[k] == post[k - |pre| - 1];
      }
    }
  }

  /** A line starting with three backticks makes `parseMarkdown` drop it and every line after it. */
  lemma RenderFenceSwallows(pre: seq<string>, fence: string, post: seq<string>)
    requires |pre| > 0 && StartsWith(fence, "```") && '\n' !in fence
    requires forall k :: 0 <= k < |pre| ==> '\n' !in pre[k]
    requires forall k :: 0 <= k < |post| ==> '\n' !in post[k]
    ensures Render(JoinLines(pre + [fence] + post)) == Render(JoinLines(pre))
  {
    NoNewlineAround(pre, fence, post);
    RenderLines(pre + [fence] + post);
    RenderLines(pre);
    FenceSwallowsRest(pre, fence, post);
  }

  /** A text whose first line starts with three backticks renders as no element at all. */
  lemma FenceFirstRendersNothing(fence: string, post: seq<string>)
    requires StartsWith(fence, "```") && '\n' !in fence
    requires forall k :: 0 <= k < |post| ==> '\n' !in post[k]
    ensures Render(JoinLines([fence] + post)) == Done([])
  {
    var none: seq<string> := [];
    var all := [fence] + post;
    NoNewlineAround(none, fence, post);
    NothingBefore(fence, post);
    RenderLines(all);
    FenceSwallowsRest(none, fence, post);
    NoLinesNoBlocks();
  }

  lemma NothingBefore<T>(x: T, post: seq<T>)
    ensures [] + [x] + post == [x] + post
  {
  }

  lemma NoLinesNoBlocks()
    ensures Blocks([]) == [] && Traverse([], Resolve) == Done([])
  {
  }

  /** The message "```js", "const x=1;", "```" renders as nothing, not as a code block. */
  lemma FencedMessageEmpty()
    ensures Render("```js\nconst x=1;\n```") == Done([])
  {
    FencedMessageLines();
    FenceFirstRendersNothing("```js", ["const x=1;", "```"]);
  }

  lemma FencedMessageLines()
    ensures JoinLines(["```js"] + ["const x=1;", "```"]) == "```js\nconst x=1;\n```"
    ensures StartsWith("```js", "```") && '\n' !in "```js"
    ensures '\n' !in "const x=1;" && '\n' !in "```"
  {
    var lines := ["```js"] + ["const x=1;", "```"];
    assert lines == ["```js", "const x=1;", "```"];
    assert lines[1..] == ["const x=1;", "```"] && lines[1..][1..] == ["```"];
    assert JoinLines(lines[1..][1..]) == "```";
    assert JoinLines(lines[1..]) == "const x=1;" + "\n" + "```";
    assert JoinLines(lines) == "```js" + "\n" + ("const x=1;" + "\n" + "```");
    assert "```js"[..3] == "```";
  }

  /** In particular a fenced code block, closing fence included, renders as nothing at all. */
  lemma FencedCodeVanishes(pre: seq<string>, language: string, body: seq<string>)
    requires |pre| > 0 && '\n' !in language
    requires forall k :: 0 <= k < |pre| ==> '\n' !in pre[k]
    requires forall k :: 0 <= k < |body| ==> '\n' !in body[k]
    ensures Render(JoinLines(pre + ["```" + language] + body + ["```"])) == Render(JoinLines(pre))
  {
    FencedLines(pre, language, body);
    RenderFenceSwallows(pre, "```" + language, body + ["```"]);
  }

  lemma FencedLines(pre: seq<string>, language: string, body: seq<string>)
    requires '\n' !in language
    requires forall k :: 0 <= k < |body| ==> '\n' !in body[k]
    ensures StartsWith("```" + language, "```") && '\n' !in "```" + language
    ensures forall k :: 0 <= k < |body + ["```"]| ==> '\n' !in (body + ["```"])[k]
    ensures pre + ["```" + language] + body + ["```"] == pre + ["```" + language] + (body + ["```"])
  {
    var fence := "```" + language;
    assert fence[..3] == "```";
    NoNewlineAround(body, "```", []);
    assert body + ["```"] + [] == body + ["```"];
  }
}
