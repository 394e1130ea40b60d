/**
 * The evidently intended behaviour of the two defects of the markdown renderer in src/App.jsx,
 * beside the as-written model: a closing fence that ends a code block, and an inline scanner
 * that keeps a special character starting no pattern as text instead of looping on it.
 */
module Corrected {
  import opened Text
  import opened Outcomes
  import opened Inline
  import opened BlockScan
  import opened BlockScanFacts

  // ----- Code blocks -----

  /** One iteration with the open code block looked at first: a line "```" closes it, any other line joins it. */
  function StepFixed(st: ScanState, line: string): ScanState {
    match st.code
    case Some(body) =>
      if line == "```" then st.(out := st.out + [RCode(st.lang, body)], code := None, lang := "")
      else st.(code := Some(body + [line]))
    case None =>
      var kind := Classify(line);
      if kind.FenceLine? then Flush(st).(code := Some([]), lang := kind.language)
      else Outside(st, kind)
  }

  function FoldFixedFrom(st: ScanState, lines: seq<string>): ScanState
    decreases |lines|
  {
    if lines == [] then st else StepFixed(FoldFixedFrom(st, lines[..|lines| - 1]), lines[|lines| - 1])
  }

  function BlocksFixed(lines: seq<string>): seq<RawBlock> { Flush(FoldFixedFrom(Initial, lines)).out }

  lemma {:induction false} FoldFixedAppend(st: ScanState, a: seq<string>, b: seq<string>)
    ensures FoldFixedFrom(st, a + b) == FoldFixedFrom(FoldFixedFrom(st, a), b)
    decreases |b|
  {
    if b == [] {
      assert a + b == a;
    } else {
      var b' := b[..|b| - 1];
      FoldFixedAppend(st, a, b');
      assert (a + b)[..|a + b| - 1] == a + b';
    }
  }

  /** With no code block open and no fence line, the corrected loop does what the loop as written does. */
  lemma {:induction false} FixedAgreesWithoutFences(lines: seq<string>)
    requires forall k :: 0 <= k < |lines| ==> !StartsWith(lines[k], "```")
    ensures FoldFixedFrom(Initial, lines) == Fold(lines) && Fold(lines).code.None?
    decreases |lines|
  {
    if lines != [] {
      var init := lines[..|lines| - 1];
      var line := lines[|lines| - 1];
      assert forall k :: 0 <= k < |init| ==> init[k] == lines[k];
      FixedAgreesWithoutFences(init);
      StepFixedAgrees(Fold(init), line);
    }
  }

  lemma StepFixedAgrees(st: ScanState, line: string)
    requires st.code.None? && !StartsWith(line, "```")
    ensures StepFixed(st, line) == Step(st, line) && Step(st, line).code.None?
  {
    var kind := Classify(line);
    assert !kind.FenceLine?;
    match kind {
      case HeadingLine(_, _) =>
      case BulletLine(_) =>
      case NumberedLine(_) =>
      case RuleLine =>
      case QuoteLine(_) =>
      case BlankLine =>
      case ParagraphLine(_) =>
    }
  }

  /** Inside an open code block every line other than the closing fence is added to it. */
  lemma {:induction false} CodeBodyQueued(st: ScanState, body: seq<string>)
    requires st.code.Some? && forall k :: 0 <= k < |body| ==> body[k] != "```"
    ensures FoldFixedFrom(st, body) == st.(code := Some(st.code.value + body))
    decreases |body|
  {
    if body == [] {
      assert st.code.value + body == st.code.value;
    } else {
      var init := body[..|body| - 1];
      assert forall k :: 0 <= k < |init| ==> init[k] == body[k];
      CodeBodyQueued(st, init);
      assert st.code.value + init + [body[|body| - 1]] == st.code.value + body;
    }
  }

  lemma FenceCapture(language: string)
    requires forall i :: 0 <= i < |language| ==> IsWordChar(language[i])
    ensures Classify("```" + language) == FenceLine(language)
  {
    var line := "```" + language;
    assert line[..3] == "```";
    forall i | 3 <= i < |line| ensures IsWordChar(line[i]) {
      assert line[i] == language[i - 3];
    }
    RunToEnd(line, 3, IsWordChar);
    assert line[3..] == language;
  }

  /** A fenced block, closing fence included, becomes one code block holding its lines and language. */
  lemma FencedBlockFixed(pre: seq<string>, language: string, body: seq<string>)
    requires forall k :: 0 <= k < |pre| ==> !StartsWith(pre[k], "```")
    requires forall i :: 0 <= i < |language| ==> IsWordChar(language[i])
    requires forall k :: 0 <= k < |body| ==> body[k] != "```"
    ensures BlocksFixed(pre + ["```" + language] + body + ["```"]) == Blocks(pre) + [RCode(language, body)]
  {
    var fence := "```" + language;
    FixedAgreesWithoutFences(pre);
    FenceCapture(language);
    var st := Fold(pre);
    var open := StepFixed(st, fence);
    assert open == Flush(st).(code := Some([]), lang := language);
    FlushEmpties(st);
    FoldFixedAppend(Initial, pre, [fence]);
    assert FoldFixedFrom(st, [fence]) == open by {
      assert [fence][..0] == [];
    }
    FoldFixedAppend(Initial, pre + [fence], body);
    CodeBodyQueued(open, body);
    var filled := open.(code := Some(body));
    assert [] + body == body;
    FoldFixedAppend(Initial, pre + [fence] + body, ["```"]);
    assert FoldFixedFrom(filled, ["```"]) == StepFixed(filled, "```") by {
      assert ["```"][..0] == [];
    }
  }

  lemma FlushEmpties(st: ScanState)
    ensures Flush(st).items == []
  {
  }

  // ----- The inline scanner -----

  /** One iteration where a stalled special character is kept as a one-character plain span. */
  function BodyFixed(remaining: string): (a: Advance)
    requires |remaining| > 0
    ensures |a.rest| < |remaining| && |a.emitted| == 1
    ensures remaining == SpanSource(a.emitted[0]) + a.rest
  {
    if Stalls(remaining) then Advance([Plain(remaining[..1])], remaining[1..]) else Body(remaining)
  }

  /** The corrected scanner always finishes, and its spans spell out the text. */
  function ScanFixed(remaining: string): (r: seq<Span>)
    ensures Source(r) == remaining
    decreases |remaining|
  {
    if remaining == [] then []
    else
      var a := BodyFixed(remaining);
      var r := a.emitted + ScanFixed(a.rest);
      assert r[1..] == ScanFixed(a.rest);
      r
  }

  /** Wherever the scanner as written finishes, the corrected one gives the same spans. */
  lemma {:induction false} ScanFixedAgrees(s: string)
    requires Scan(s).Done?
    ensures ScanFixed(s) == Scan(s).value
    decreases |s|
  {
    if s != [] {
      ScanUnfold(s);
      ScanFixedAgrees(Body(s).rest);
    }
  }

  /** A special character that starts no pattern is kept as text and the scan goes on after it. */
  lemma StallKeptAsText(s: string)
    requires Stalls(s)
    ensures ScanFixed(s) == [Plain(s[..1])] + ScanFixed(s[1..])
  {
  }

  function InlineFixed(text: string): (r: Inline)
    ensures r.Raw? <==> text == []
    ensures r.Raw? ==> r.text == text
    ensures r.Parts? ==> Source(r.spans) == text
  {
    var parts := ScanFixed(text);
    if |parts| > 0 then Parts(parts) else Raw(text)
  }

  /** The corrected `parseInline` agrees with the one as written wherever that one returns. */
  lemma InlineFixedAgrees(text: string)
    requires InlineOf(text).Done?
    ensures InlineFixed(text) == InlineOf(text).value
  {
    ScanFixedAgrees(text);
  }
}
