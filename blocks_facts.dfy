/** Properties of the line loop of `parseMarkdown` (src/App.jsx). */
module BlockScanFacts {
  import opened Text
  import opened Outcomes
  import opened BlockScan

  // ----- Line classification -----

  /** On a line without line terminators, `\s+(.+)` captures the rest after the whitespace, giving back one space when nothing else follows. */
  lemma SpacesThenTextPlain(s: string, p: nat)
    requires p <= |s| && NoLineTerminator(s)
    ensures var w := Run(s, p, IsSpace);
      SpacesThenText(s, p) ==
        if w == 0 then None
        else if p + w < |s| then Some(s[p + w..])
        else if w >= 2 then Some(s[|s| - 1..])
        else None
  {
    var w := Run(s, p, IsSpace);
    if w > 0 && p + w < |s| {
      RunToEnd(s, p + w, NotLineTerminator);
      assert !IsLineTerminator(s[p + w]);
      assert GiveBack(s, p, w) == Some(s[p + w..p + w + Run(s, p + w, NotLineTerminator)]);
      assert s[p + w..p + w + Run(s, p + w, NotLineTerminator)] == s[p + w..];
    } else if w >= 2 {
      RunToEnd(s, |s| - 1, NotLineTerminator);
      assert !IsLineTerminator(s[|s| - 1]);
      assert GiveBack(s, p, w) == GiveBack(s, p, w - 1);
      assert GiveBack(s, p, w - 1) == Some(s[|s| - 1..|s| - 1 + Run(s, |s| - 1, NotLineTerminator)]);
      assert s[|s| - 1..|s| - 1 + Run(s, |s| - 1, NotLineTerminator)] == s[|s| - 1..];
    } else if w == 1 {
      assert GiveBack(s, p, w) == GiveBack(s, p, 0);
    }
  }

  function Repeat(c: char, n: nat): (r: string)
    ensures |r| == n && forall i :: 0 <= i < n ==> r[i] == c
  {
    seq(n, _ => c)
  }

  /** One to six `#`, a space and a text that does not start with whitespace make a heading of that level. */
  lemma HeadingLevel(h: nat, t: string)
    requires 1 <= h <= 6 && |t| > 0 && NoLineTerminator(t) && !IsSpace(t[0])
    ensures Classify(Repeat('#', h) + " " + t) == HeadingLine(h, t)
  {
    var line := Repeat('#', h) + " " + t;
    HeadingCapture(h, t);
    assert !StartsWith(line, "```") by { assert line[..3][0] == line[0] == '#'; }
  }

  lemma HeadingCapture(h: nat, t: string)
    requires 1 <= h <= 6 && |t| > 0 && NoLineTerminator(t) && !IsSpace(t[0])
    ensures HeadingMatch(Repeat('#', h) + " " + t) == Some((h, t))
  {
    var line := Repeat('#', h) + " " + t;
    assert line[h] == ' ';
    assert Run(line, 0, IsHash) == h by { RunPrefix(line, h, IsHash); }
    assert line[h + 1..] == t;
    TextAfterSpace(line, h, t);
  }

  /** One space and then a text that does not start with whitespace: `\s+(.+)` captures that text. */
  lemma TextAfterSpace(line: string, p: nat, t: string)
    requires p < |line| && line[p] == ' ' && line[p + 1..] == t
    requires |t| > 0 && NoLineTerminator(t) && !IsSpace(t[0])
    ensures SpacesThenText(line, p) == Some(t)
  {
    assert line[p + 1] == t[0];
    assert Run(line, p, IsSpace) == 1 by { assert Run(line, p + 1, IsSpace) == 0; }
    forall i | p + 1 <= i < |line| ensures NotLineTerminator(line[i]) {
      assert line[i] == t[i - p - 1];
    }
    RunToEnd(line, p + 1, NotLineTerminator);
    assert GiveBack(line, p, 1) == Some(line[p + 1..p + 1 + Run(line, p + 1, NotLineTerminator)]);
    assert line[p + 1..p + 1 + Run(line, p + 1, NotLineTerminator)] == line[p + 1..];
  }

  /** The run of a class over a prefix whose next character is outside the class. */
  lemma {:induction false} RunPrefix(s: string, n: nat, cls: char -> bool)
    requires n < |s| && !cls(s[n]) && forall i :: 0 <= i < n ==> cls(s[i])
    ensures Run(s, 0, cls) == n
  {
    RunFrom(s, 0, n, cls);
  }

  lemma {:induction false} RunFrom(s: string, p: nat, n: nat, cls: char -> bool)
    requires p <= n < |s| && !cls(s[n]) && forall i :: p <= i < n ==> cls(s[i])
    ensures Run(s, p, cls) == n - p
    decreases n - p
  {
    if p < n {
      RunFrom(s, p + 1, n, cls);
    }
  }

  /** Seven or more leading `#` never make a heading: such a line is a paragraph. */
  lemma TooManyHashes(line: string)
    requires Run(line, 0, IsHash) >= 7
    ensures Classify(line) == ParagraphLine(line)
  {
    assert line[0] == '#' && line[1] == '#';
    assert !StartsWith(line, "```") by { assert line[..3][0] == '#'; }
    assert !IsBlank(line) by { assert !IsSpace(line[0]); }
  }

  /** A `*` or `-`, a space and a text that does not start with whitespace make a bullet item. */
  lemma BulletItem(c: char, t: string)
    requires (c == '*' || c == '-') && |t| > 0 && NoLineTerminator(t) && !IsSpace(t[0])
    ensures Classify([c] + " " + t) == BulletLine(t)
  {
    var line := [c] + " " + t;
    assert BulletMatch(line) == Some(t) by { BulletCapture(c, t); }
    assert line[0] == c;
    assert HeadingMatch(line) == None by { assert Run(line, 0, IsHash) == 0; }
    assert !StartsWith(line, "```") by { assert line[..3][1] == ' '; }
  }

  lemma BulletCapture(c: char, t: string)
    requires (c == '*' || c == '-') && |t| > 0 && NoLineTerminator(t) && !IsSpace(t[0])
    ensures BulletMatch([c] + " " + t) == Some(t)
  {
    var line := [c] + " " + t;
    assert line[0] == c && line[1] == ' ';
    assert line[2..] == t;
    TextAfterSpace(line, 1, t);
  }

  /** "- - -" is read as a bullet holding "- -", because the bullet test comes before the rule test. */
  lemma SpacedDashesAreBullet()
    ensures Classify("- - -") == BulletLine("- -")
  {
    BulletItem('-', "- -");
    assert ['-'] + " " + "- -" == "- - -";
  }

  /** Three or more dashes alone make a horizontal rule. */
  lemma DashesAreRule(n: nat)
    requires n >= 3
    ensures Classify(Repeat('-', n)) == RuleLine
  {
    var line := Repeat('-', n);
    assert line[0] == '-' && line[1] == '-';
    assert !StartsWith(line, "```") by { assert line[..3][0] == '-'; }
    assert Run(line, 0, IsHash) == 0;
    assert Run(line, 1, IsSpace) == 0;
  }

  /** A `>`, a space and a text that does not start with whitespace make a quote of that text. */
  lemma QuoteItem(t: string)
    requires |t| > 0 && NoLineTerminator(t) && !IsSpace(t[0])
    ensures Classify("> " + t) == QuoteLine(t)
  {
    var line := "> " + t;
    assert QuoteMatch(line) == Some(t) by { QuoteCapture(t); }
    assert line[0] == '>';
    assert FenceLanguage(line) == None by { assert line[..3][0] == '>'; }
    assert HeadingMatch(line) == None by { assert Run(line, 0, IsHash) == 0; }
    assert BulletMatch(line) == None;
    assert NumberedMatch(line) == None by { assert Run(line, 0, IsDigit) == 0; }
    assert !IsRule(line);
  }

  lemma QuoteCapture(t: string)
    requires |t| > 0 && NoLineTerminator(t) && !IsSpace(t[0])
    ensures QuoteMatch("> " + t) == Some(t)
  {
    var line := "> " + t;
    assert line[0] == '>' && line[1] == ' ';
    assert line[2..] == t;
    TextAfterSpace(line, 1, t);
  }

  /** A line of whitespace only, the empty line included, is blank and pushes a spacer. */
  lemma BlankLineIsBlank(line: string)
    requires IsBlank(line)
    ensures Classify(line) == BlankLine
  {
    if line != [] {
      assert IsSpace(line[0]);
      assert !StartsWith(line, "```") by { assert |line| < 3 || line[..3][0] == line[0]; }
      assert HeadingMatch(line) == None by { assert Run(line, 0, IsHash) == 0; }
      assert NumberedMatch(line) == None by { assert Run(line, 0, IsDigit) == 0; }
    }
  }

  /** Digits, a dot, a space and a text that does not start with whitespace make a numbered item. */
  lemma NumberedItem(digits: string, t: string)
    requires |digits| > 0 && (forall i :: 0 <= i < |digits| ==> IsDigit(digits[i]))
    requires |t| > 0 && NoLineTerminator(t) && !IsSpace(t[0])
    ensures Classify(digits + ". " + t) == NumberedLine(t)
  {
    var line := digits + ". " + t;
    assert NumberedMatch(line) == Some(t) by { NumberedCapture(digits, t); }
    assert line[0] == digits[0];
    assert HeadingMatch(line) == None by { assert Run(line, 0, IsHash) == 0; }
    assert !StartsWith(line, "```") by { assert line[..3][0] == digits[0]; }
  }

  lemma NumberedCapture(digits: string, t: string)
    requires |digits| > 0 && (forall i :: 0 <= i < |digits| ==> IsDigit(digits[i]))
    requires |t| > 0 && NoLineTerminator(t) && !IsSpace(t[0])
    ensures NumberedMatch(digits + ". " + t) == Some(t)
  {
    var line := digits + ". " + t;
    var d := |digits|;
    assert line[d] == '.' && line[d + 1] == ' ';
    assert Run(line, 0, IsDigit) == d by { RunPrefix(line, d, IsDigit); }
    assert line[d + 2..] == t;
    TextAfterSpace(line, d + 1, t);
  }

  // ----- The loop -----

  /** Running the loop over `a + b` is running it over `a`, then over `b`. */
  lemma {:induction false} FoldFromAppend(st: ScanState, a: seq<string>, b: seq<string>)
    ensures FoldFrom(st, a + b) == FoldFrom(FoldFrom(st, a), b)
    decreases |b|
  {
    if b == [] {
      assert a + b == a;
    } else {
      var b' := b[..|b| - 1];
      var last := b[|b| - 1];
      FoldFromAppend(st, a, b');
      assert (a + b)[..|a + b| - 1] == a + b' && (a + b)[|a + b| - 1] == last;
      assert FoldFrom(st, a + b) == Step(FoldFrom(st, a + b'), last);
      assert FoldFrom(FoldFrom(st, a), b) == Step(FoldFrom(FoldFrom(st, a), b'), last);
    }
  }

  /** Blocks pushed stay pushed: each iteration only appends to `elements`. */
  lemma StepExtends(st: ScanState, line: string)
    ensures st.out <= Step(st, line).out
  {
  }

  lemma {:induction false} FoldFromExtends(st: ScanState, lines: seq<string>)
    ensures st.out <= FoldFrom(st, lines).out
    decreases |lines|
  {
    if lines != [] {
      FoldFromExtends(st, lines[..|lines| - 1]);
      StepExtends(FoldFrom(st, lines[..|lines| - 1]), lines[|lines| - 1]);
    }
  }

  /** The blocks pushed after the first `i` lines are a prefix of the final blocks. */
  lemma PrefixBlocks(lines: seq<string>, i: nat)
    requires i <= |lines|
    ensures Fold(lines[..i]).out <= Blocks(lines)
  {
    assert lines == lines[..i] + lines[i..];
    FoldFromAppend(Initial, lines[..i], lines[i..]);
    FoldFromExtends(Fold(lines[..i]), lines[i..]);
  }

  /** A block as the loop can push it: headings of level 1 to 6, non-empty texts, lists with non-empty items, and never a code block. */
  predicate GoodBlock(b: RawBlock) {
    match b
    case RHeading(level, text) => 1 <= level <= 6 && |text| > 0
    case RQuote(text) => |text| > 0
    case RList(_, items) => |items| > 0 && forall k :: 0 <= k < |items| ==> |items[k]| > 0
    case RCode(_, _) => false
    case _ => true
  }

  /** The loop's invariant: pending items exist exactly when a list type is set, none are pending while a code block is open, and every block is good. */
  predicate WellFormed(st: ScanState) {
    (|st.items| > 0 <==> st.kind.Some?) &&
    (st.code.Some? ==> st.items == []) &&
    (forall k :: 0 <= k < |st.items| ==> |st.items[k]| > 0) &&
    (forall k :: 0 <= k < |st.out| ==> GoodBlock(st.out[k]))
  }

  /** The line "```" is a fence line. */
  lemma FenceKind(line: string)
    ensures line == "```" ==> Classify(line).FenceLine?
  {
    if line == "```" {
      assert line[..3] == "```";
    }
  }

  lemma NotFence(line: string)
    requires !Classify(line).FenceLine?
    ensures line != "```"
  {
    if line == "```" {
      assert StartsWith(line, "```");
    }
  }

  lemma FlushWellFormed(st: ScanState)
    requires WellFormed(st)
    ensures WellFormed(Flush(st)) && Flush(st).items == [] && Flush(st).kind == None
  {
    if |st.items| > 0 {
      var f := Flush(st);
      assert GoodBlock(f.out[|f.out| - 1]);
    }
  }

  lemma EmitWellFormed(st: ScanState, b: RawBlock)
    requires WellFormed(st) && GoodBlock(b) && st.code.None?
    ensures WellFormed(Emit(st, b))
  {
    FlushWellFormed(st);
  }

  lemma AddItemWellFormed(st: ScanState, kind: ListKind, text: string)
    requires WellFormed(st) && |text| > 0 && st.code.None?
    ensures WellFormed(AddItem(st, kind, text))
  {
    FlushWellFormed(st);
  }

  lemma StepWellFormed(st: ScanState, line: string)
    requires WellFormed(st)
    ensures WellFormed(Step(st, line))
  {
    var k := Classify(line);
    if k.FenceLine? {
      FlushWellFormed(st);
    } else if st.code.Some? {
      NotFence(line);
    } else {
      match k
      case HeadingLine(level, text) => EmitWellFormed(st, RHeading(level, text));
      case BulletLine(text) => AddItemWellFormed(st, Bullets, text);
      case NumberedLine(text) => AddItemWellFormed(st, Numbers, text);
      case RuleLine => EmitWellFormed(st, RRule);
      case QuoteLine(text) => EmitWellFormed(st, RQuote(text));
      case BlankLine => EmitWellFormed(st, RSpacer);
      case ParagraphLine(text) => EmitWellFormed(st, RParagraph(text));
    }
  }

  lemma {:induction false} FoldFromWellFormed(st: ScanState, lines: seq<string>)
    requires WellFormed(st)
    ensures WellFormed(FoldFrom(st, lines))
    decreases |lines|
  {
    if lines != [] {
      FoldFromWellFormed(st, lines[..|lines| - 1]);
      StepWellFormed(FoldFrom(st, lines[..|lines| - 1]), lines[|lines| - 1]);
    }
  }

  /** Every block `parseMarkdown` produces is good; in particular it never produces a code block. */
  lemma BlocksAreGood(lines: seq<string>)
    ensures forall k :: 0 <= k < |Blocks(lines)| ==> GoodBlock(Blocks(lines)[k])
  {
    FoldFromWellFormed(Initial, lines);
  }
  /** No code block is ever pushed: the branch that would push one is never taken. */
  lemma NoCodeBlocks(lines: seq<string>)
    ensures forall k :: 0 <= k < |Blocks(lines)| ==> !Blocks(lines)[k].RCode?
  {
    var bs := Blocks(lines);
    BlocksAreGood(lines);
    forall k | 0 <= k < |bs| ensures !bs[k].RCode? {
      assert GoodBlock(bs[k]);
    }
  }


  /** Once a code block is open it stays open, and nothing more is pushed or queued. */
  lemma {:induction false} CodeStaysOpen(st: ScanState, lines: seq<string>)
    requires st.code.Some? && st.items == []
    ensures FoldFrom(st, lines).code.Some?
    ensures FoldFrom(st, lines).out == st.out && FoldFrom(st, lines).items == []
    decreases |lines|
  {
    if lines != [] {
      var line := lines[|lines| - 1];
      CodeStaysOpen(st, lines[..|lines| - 1]);
      if !Classify(line).FenceLine? {
        NotFence(line);
      }
    }
  }

  /** After one iteration a code block is open exactly when it was already, or the line opens one. */
  lemma StepCode(st: ScanState, line: string)
    ensures Step(st, line).code.Some? <==> st.code.Some? || StartsWith(line, "```")
  {
    if !Classify(line).FenceLine? {
      NotFence(line);
    }
  }

  /** The loop over some lines is the loop over all but the last, then one iteration on the last. */
  lemma FoldLast(lines: seq<string>)
    requires |lines| > 0
    ensures Fold(lines) == Step(Fold(lines[..|lines| - 1]), lines[|lines| - 1])
  {
  }

  /** The loop over the first `i + 1` lines is the loop over the first `i`, then one iteration on line `i`. */
  lemma FoldStep(lines: seq<string>, i: nat)
    requires i < |lines|
    ensures Fold(lines[..i + 1]) == Step(Fold(lines[..i]), lines[i])
  {
    assert lines[..i + 1][..i] == lines[..i];
  }

  /** A code block is open after the loop exactly when some line starts with three backticks. */
  lemma {:induction false} CodeOpenIff(lines: seq<string>)
    ensures Fold(lines).code.Some? <==> exists k :: 0 <= k < |lines| && StartsWith(lines[k], "```")
    decreases |lines|
  {
    if lines != [] {
      var init := lines[..|lines| - 1];
      var line := lines[|lines| - 1];
      var st := Fold(init);
      CodeOpenIff(init);
      FoldLast(lines);
      StepCode(st, line);
      if Fold(lines).code.Some? {
        if st.code.Some? {
          var k :| 0 <= k < |init| && StartsWith(init[k], "```");
          assert lines[k] == init[k];
        } else {
          assert StartsWith(lines[|lines| - 1], "```");
        }
      } else {
        forall k | 0 <= k < |lines| ensures !StartsWith(lines[k], "```") {
          if k < |init| {
            assert lines[k] == init[k];
          }
        }
      }
    }
  }

  /** A line starting with three backticks swallows itself and everything after it: the blocks are those of the lines before it. */
  lemma FenceSwallowsRest(pre: seq<string>, fence: string, post: seq<string>)
    requires StartsWith(fence, "```")
    ensures Blocks(pre + [fence] + post) == Blocks(pre)
  {
    FoldFromAppend(Initial, pre + [fence], post);
    assert (pre + [fence])[..|pre|] == pre;
    var open := Fold(pre + [fence]);
    assert open.out == Flush(Fold(pre)).out && open.items == [] && open.code.Some?;
    CodeStaysOpen(open, post);
  }

  /** The empty line is a blank line. */
  lemma EmptyLineIsBlank()
    ensures Classify("") == BlankLine
  {
    assert Run("", 0, IsHash) == 0;
    assert Run("", 0, IsDigit) == 0;
  }

  /** A trailing empty line adds one spacer, unless a code block swallowed it. */
  lemma TrailingBlankLine(lines: seq<string>)
    ensures Blocks(lines + [""]) ==
      if Fold(lines).code.None? then Blocks(lines) + [RSpacer] else Blocks(lines)
  {
    EmptyLineIsBlank();
    FoldFromWellFormed(Initial, lines);
    assert (lines + [""])[..|lines|] == lines;
  }

  /** The text of one line, `""` included, gives a single spacer when it is blank. */
  lemma SingleEmptyLine()
    ensures Blocks([""]) == [RSpacer]
  {
    TrailingBlankLine([]);
    assert [] + [""] == [""];
  }

  /** Whether a classified line is an item of a list of the given kind. */
  predicate IsItemOf(k: LineKind, kind: ListKind) {
    (kind == Bullets && k.BulletLine?) || (kind == Numbers && k.NumberedLine?)
  }

  function ItemLine(kind: ListKind, text: string): LineKind {
    if kind == Bullets then BulletLine(text) else NumberedLine(text)
  }

  /** Outside a code block, an item line is queued: flushed first only when the list kind changes. */
  lemma StepItem(st: ScanState, line: string, kind: ListKind)
    requires st.code.None? && IsItemOf(Classify(line), kind)
    ensures Classify(line) == ItemLine(kind, Classify(line).text)
    ensures Step(st, line) == AddItem(st, kind, Classify(line).text)
  {
  }

  /** An item line with no list pending, or a list of its own kind pending, is queued without a flush. */
  lemma QueueStep(st: ScanState, line: string, kind: ListKind)
    requires st.code.None? && IsItemOf(Classify(line), kind)
    requires st.kind == Some(kind) || (st.kind.None? && st.items == [])
    ensures Classify(line) == ItemLine(kind, Classify(line).text)
    ensures Step(st, line) == st.(items := st.items + [Classify(line).text], kind := Some(kind))
  {
    StepItem(st, line, kind);
  }

  /** Consecutive items of one kind are queued, in order, as one pending list; nothing is pushed yet. */
  lemma {:induction false} ItemRunQueued(lines: seq<string>, kind: ListKind)
    requires |lines| > 0
    requires forall k :: 0 <= k < |lines| ==> IsItemOf(Classify(lines[k]), kind)
    ensures Fold(lines).out == [] && Fold(lines).kind == Some(kind) && Fold(lines).code.None? && Fold(lines).lang == ""
    ensures |Fold(lines).items| == |lines|
    ensures forall k :: 0 <= k < |lines| ==> Classify(lines[k]) == ItemLine(kind, Fold(lines).items[k])
    decreases |lines|
  {
    var init := lines[..|lines| - 1];
    var line := lines[|lines| - 1];
    var st := Fold(init);
    FoldLast(lines);
    assert IsItemOf(Classify(line), kind);
    if init == [] {
      assert st == Initial;
      QueueStep(Initial, line, kind);
    } else {
      assert forall k :: 0 <= k < |init| ==> init[k] == lines[k];
      ItemRunQueued(init, kind);
      QueueStep(st, line, kind);
    }
    assert |st.items| == |init|;
    var text := Classify(line).text;
    var items := st.items + [text];
    assert Fold(lines).items == items;
    forall k | 0 <= k < |lines| ensures Classify(lines[k]) == ItemLine(kind, items[k]) {
      if k < |init| {
        assert lines[k] == init[k] && items[k] == st.items[k];
      } else {
        assert k == |st.items|;
        assert lines[k] == line && items[k] == text;
      }
    }
  }

  /** A run of items of one kind becomes exactly one list holding their texts in order. */
  lemma ItemRunIsOneList(lines: seq<string>, kind: ListKind)
    requires |lines| > 0
    requires forall k :: 0 <= k < |lines| ==> IsItemOf(Classify(lines[k]), kind)
    ensures |Blocks(lines)| == 1 && Blocks(lines)[0].RList? && Blocks(lines)[0].kind == kind
    ensures |Blocks(lines)[0].items| == |lines|
    ensures forall k :: 0 <= k < |lines| ==> Classify(lines[k]) == ItemLine(kind, Blocks(lines)[0].items[k])
  {
    ItemRunQueued(lines, kind);
  }

  /** A bullet run followed by a numbered run gives the two lists one after the other: the change of kind flushes the first. */
  lemma KindChangeSplitsList(bullets: seq<string>, numbers: seq<string>)
    requires |bullets| > 0 && |numbers| > 0
    requires forall k :: 0 <= k < |bullets| ==> IsItemOf(Classify(bullets[k]), Bullets)
    requires forall k :: 0 <= k < |numbers| ==> IsItemOf(Classify(numbers[k]), Numbers)
    ensures Blocks(bullets + numbers) == Blocks(bullets) + Blocks(numbers)
  {
    ItemRunQueued(bullets, Bullets);
    ItemRunQueued(numbers, Numbers);
    FoldFromAppend(Initial, bullets, numbers);
    NumbersAfter(Fold(bullets), numbers);
  }

  /** A numbered run after queued bullets pushes the bullets, then queues exactly what it queues from the start. */
  lemma {:induction false} NumbersAfter(st: ScanState, numbers: seq<string>)
    requires |numbers| > 0 && st.out == [] && st.kind == Some(Bullets) && st.code.None? && st.lang == "" && |st.items| > 0
    requires forall k :: 0 <= k < |numbers| ==> IsItemOf(Classify(numbers[k]), Numbers)
    ensures FoldFrom(st, numbers) == Fold(numbers).(out := [RList(Bullets, st.items)])
    decreases |numbers|
  {
    var init := numbers[..|numbers| - 1];
    var line := numbers[|numbers| - 1];
    assert IsItemOf(Classify(line), Numbers);
    var text := Classify(line).text;
    if init != [] {
      assert forall k :: 0 <= k < |init| ==> init[k] == numbers[k];
      NumbersAfter(st, init);
      ItemRunQueued(init, Numbers);
      StepItem(FoldFrom(st, init), line, Numbers);
      StepItem(Fold(init), line, Numbers);
    } else {
      StepItem(st, line, Numbers);
      StepItem(Initial, line, Numbers);
      assert Fold(init) == Initial;
      assert Fold(numbers) == Step(Initial, line);
      assert FoldFrom(st, numbers) == ScanState([RList(Bullets, st.items)], [text], Some(Numbers), None, st.lang);
      assert Fold(numbers) == ScanState([], [text], Some(Numbers), None, "");
    }
  }
}
