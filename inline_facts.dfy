/** Properties of the inline scanner `parseInline` (src/App.jsx). */
module InlineFacts {
  import opened Text
  import opened Outcomes
  import opened Inline

  /** Plain spans are non-empty and hold no `*`, backtick or `[`: those only ever start a pattern or a stall. */
  lemma {:induction false} PlainSpansHaveNoSpecials(text: string)
    requires Scan(text).Done?
    ensures forall k :: 0 <= k < |Scan(text).value| ==> PlainOk(Scan(text).value[k])
    decreases |text|
  {
    if text != [] {
      ScanUnfold(text);
      var a := Body(text);
      PlainSpansHaveNoSpecials(a.rest);
      assert Scan(text).value == a.emitted + Scan(a.rest).value;
    }
  }

  /** The loop, started on `text`, reaches `remaining == r` after iterations that each shorten `remaining`. */
  predicate Reaches(text: string, r: string)
    decreases |text|
  {
    r == text || (text != [] && |Body(text).rest| < |text| && Reaches(Body(text).rest, r))
  }

  /** What the loop reaches is a suffix of the text. */
  lemma {:induction false} ReachedIsSuffix(text: string, r: string)
    requires Reaches(text, r)
    ensures |r| <= |text| && r == text[|text| - |r|..]
    decreases |text|
  {
    if r != text {
      var rest := Body(text).rest;
      RestIsSuffix(text);
      ReachedIsSuffix(rest, r);
      SuffixChain(text, rest, r);
    }
  }

  /** A suffix of a suffix is a suffix. */
  lemma SuffixChain<T>(t: seq<T>, u: seq<T>, v: seq<T>)
    requires |u| <= |t| && u == t[|t| - |u|..] && |v| <= |u| && v == u[|u| - |v|..]
    ensures |v| <= |t| && v == t[|t| - |v|..]
  {
    assert u[|u| - |v|..] == t[|t| - |v|..];
  }

  /** An iteration that shortens the text leaves a suffix of it. */
  lemma RestIsSuffix(text: string)
    requires text != [] && |Body(text).rest| < |text|
    ensures Body(text).rest == text[|text| - |Body(text).rest|..]
  {
    var a := Body(text);
    assert text == SpanSource(a.emitted[0]) + a.rest;
    assert text[|SpanSource(a.emitted[0])|..] == a.rest;
  }

  /** The scanner hangs exactly when the loop reaches a `remaining` that stalls. */
  lemma HangsIffStallReached(text: string)
    ensures Scan(text).Hangs? <==> exists r :: Reaches(text, r) && Stalls(r)
  {
    if Scan(text).Hangs? {
      var r := HangReachesStall(text);
    }
    forall r | Reaches(text, r) && Stalls(r) ensures Scan(text).Hangs? {
      ReachedStallHangs(text, r);
    }
  }

  /** A hanging scanner reaches a `remaining` that stalls. */
  lemma {:induction false} HangReachesStall(text: string) returns (r: string)
    requires Scan(text).Hangs?
    ensures Reaches(text, r) && Stalls(r)
    decreases |text|
  {
    assert text != [];
    if Stalls(text) {
      r := text;
    } else {
      HangsAfterStep(text);
      r := HangReachesStall(Body(text).rest);
    }
  }

  /** A scanner that hangs without stalling at once hangs on what its first iteration leaves. */
  lemma HangsAfterStep(text: string)
    requires text != [] && |Body(text).rest| < |text| && Scan(text).Hangs?
    ensures Scan(Body(text).rest).Hangs?
  {
  }

  /** A stall the loop reaches hangs the scanner. */
  lemma {:induction false} ReachedStallHangs(text: string, r: string)
    requires Reaches(text, r) && Stalls(r)
    ensures Scan(text).Hangs?
    decreases |text|
  {
    if r == text {
      ScanUnfold(text);
    } else {
      ReachedStallHangs(Body(text).rest, r);
    }
  }

  /** The lazy group takes `k` characters exactly when they fit and no shorter run fits. */
  lemma LazyGroupIs(s: string, start: nat, close: string, k: nat)
    requires start <= |s| && |close| > 0
    requires LazyFits(s, start, close, k)
    requires forall j :: 1 <= j < k ==> !ClosesAfter(s, start, close, j)
    ensures LazyGroup(s, start, close) == Some(k)
  {
  }

  /** Without its closing character after `start`, the lazy group never matches. */
  lemma LazyGroupFails(s: string, start: nat, close: string)
    requires start <= |s| && |close| > 0
    requires forall i :: start < i < |s| ==> s[i] != close[0]
    ensures LazyGroup(s, start, close) == None
  {
    forall k | 1 <= k && start + k + |close| <= |s| ensures !ClosesAfter(s, start, close, k) {
      assert s[start + k..start + k + |close|][0] == s[start + k];
    }
  }

  /** Text that does not start with a special character is plain up to the next special character. */
  lemma PlainStep(s: string, n: nat)
    requires 0 < n <= |s|
    requires forall i :: 0 <= i < n ==> !IsSpecial(s[i])
    requires n == |s| || IsSpecial(s[n])
    ensures Body(s) == Advance([Plain(s[..n])], s[n..])
  {
    NoPatternAt(s);
    var next := SearchSpecial(s);
    assert next == if n == |s| then -1 else n;
    assert s[..|s|] == s;
  }

  /** No pattern starts with a character that is not special. */
  lemma NoPatternAt(s: string)
    requires |s| > 0 && !IsSpecial(s[0])
    ensures BoldAt(s).None? && ItalicAt(s).None? && CodeAt(s).None? && LinkAt(s).None?
  {
    assert !StartsWith(s, "**") && !StartsWith(s, "*") && !StartsWith(s, "`") && !StartsWith(s, "[") by {
      assert s[..1][0] == s[0];
    }
  }

  /** A stall anywhere the scanner reaches is a hang: the first special character of "a * b" opens no pattern. */
  lemma StarWithoutPartnerHangs()
    ensures Scan("a * b") == Hangs
  {
    var s := "a * b";
    PlainStep(s, 2);
    ScanUnfold(s);
    var t := s[2..];
    assert t == "* b";
    LazyGroupFails(t, 1, "*");
    assert Stalls(t);
    ScanUnfold(t);
  }

  /** A bracket with no `(href)` after it hangs the scanner. */
  lemma BracketWithoutHrefHangs()
    ensures Scan("[x]") == Hangs
  {
    var s := "[x]";
    assert LinkFrom(s, 2) == None;
    assert LinkFrom(s, 1) == None;
    assert Stalls(s);
    ScanUnfold(s);
  }

  /** A bold span wins whenever `**x**` matches. */
  lemma BoldStep(s: string, k: nat)
    requires StartsWith(s, "**") && LazyGroup(s, 2, "**") == Some(k)
    ensures Body(s) == Advance([Bold(s[2..2 + k])], s[2 + k + 2..])
  {
  }

  /** An italic span, when the text does not start with a bold span. */
  lemma ItalicStep(s: string, k: nat)
    requires BoldAt(s).None? && StartsWith(s, "*") && LazyGroup(s, 1, "*") == Some(k)
    ensures Body(s) == Advance([Italic(s[1..1 + k])], s[1 + k + 1..])
  {
  }

  /** An inline code span. */
  lemma CodeStep(s: string, k: nat)
    requires StartsWith(s, "`") && LazyGroup(s, 1, "`") == Some(k)
    ensures Body(s) == Advance([Code(s[1..1 + k])], s[1 + k + 1..])
  {
    assert !StartsWith(s, "*") && !StartsWith(s, "**") by { assert s[..1][0] == s[0]; }
  }

  /** A closing delimiter does not occur where its first character is missing. */
  lemma NotOccursAt(s: string, p: nat, close: string)
    requires p < |s| && |close| > 0 && s[p] != close[0]
    ensures !OccursAt(s, p, close)
  {
    if p + |close| <= |s| {
      assert s[p..p + |close|][0] == s[p];
    }
  }

  predicate Avoids(t: string, c: char) { forall i :: 0 <= i < |t| ==> t[i] != c }

  /** `**t**` is read as bold when `t` holds no `*` and no line terminator. */
  lemma {:induction false} BoldFront(t: string, rest: string)
    requires |t| > 0 && NoLineTerminator(t) && Avoids(t, '*')
    ensures Body("**" + t + "**" + rest) == Advance([Bold(t)], rest)
  {
    var s := "**" + t + "**" + rest;
    assert s[2..2 + |t|] == t;
    assert s[2 + |t|..2 + |t| + 2] == "**";
    forall j | 1 <= j < |t| ensures !ClosesAfter(s, 2, "**", j) {
      assert s[2 + j] == t[j];
      NotOccursAt(s, 2 + j, "**");
    }
    LazyGroupIs(s, 2, "**", |t|);
    assert s[2 + |t| + 2..] == rest;
    BoldStep(s, |t|);
  }

  /** `*t*` is read as italic when `t` holds no `*` and no line terminator. */
  lemma {:induction false} ItalicFront(t: string, rest: string)
    requires |t| > 0 && NoLineTerminator(t) && Avoids(t, '*')
    ensures Body("*" + t + "*" + rest) == Advance([Italic(t)], rest)
  {
    var s := "*" + t + "*" + rest;
    assert s[1..1 + |t|] == t;
    assert s[1 + |t|..1 + |t| + 1] == "*";
    forall j | 1 <= j < |t| ensures !ClosesAfter(s, 1, "*", j) {
      assert s[1 + j] == t[j];
      NotOccursAt(s, 1 + j, "*");
    }
    LazyGroupIs(s, 1, "*", |t|);
    assert s[1 + |t| + 1..] == rest;
    assert !StartsWith(s, "**") by { assert s[..2][1] == t[0]; }
    ItalicStep(s, |t|);
  }

  /** A backtick-quoted `t` is read as inline code when `t` holds no backtick and no line terminator. */
  lemma {:induction false} CodeFront(t: string, rest: string)
    requires |t| > 0 && NoLineTerminator(t) && Avoids(t, '`')
    ensures Body("`" + t + "`" + rest) == Advance([Code(t)], rest)
  {
    var s := "`" + t + "`" + rest;
    assert s[1..1 + |t|] == t;
    assert s[1 + |t|..1 + |t| + 1] == "`";
    forall j | 1 <= j < |t| ensures !ClosesAfter(s, 1, "`", j) {
      assert s[1 + j] == t[j];
      NotOccursAt(s, 1 + j, "`");
    }
    LazyGroupIs(s, 1, "`", |t|);
    assert s[1 + |t| + 1..] == rest;
    CodeStep(s, |t|);
  }

  /** `[l](h)` is read as a link when `l` holds no `]`, `h` holds no `)`, and neither holds a line terminator. */
  lemma {:induction false} LinkFront(l: string, h: string, rest: string)
    requires |l| > 0 && NoLineTerminator(l) && Avoids(l, ']')
    requires |h| > 0 && NoLineTerminator(h) && Avoids(h, ')')
    ensures Body("[" + l + "](" + h + ")" + rest) == Advance([Link(l, h)], rest)
  {
    var s := "[" + l + "](" + h + ")" + rest;
    LinkSplitAt(l, h, rest);
    LinkAtIs(s);
    var m := LinkAt(s).value;
    assert |m.span.caption| == |l| && m.span == Link(l, h);
    assert s[..m.len] == SpanSource(Link(l, h));
    assert s[m.len..] == rest;
    assert !StartsWith(s, "*") && !StartsWith(s, "`") by { assert s[..1][0] == '['; }
  }

  /** In `[l](h)`, the first label length that allows a split is that of `l`, and it gives the link of `l` and `h`. */
  lemma LinkSplitAt(l: string, h: string, rest: string)
    requires |l| > 0 && NoLineTerminator(l) && Avoids(l, ']')
    requires |h| > 0 && NoLineTerminator(h) && Avoids(h, ')')
    ensures var s := "[" + l + "](" + h + ")" + rest;
      LinkSplit(s, |l|) && LinkOf(s, |l|) == Link(l, h) && forall k :: 1 <= k < |l| ==> !LinkSplit(s, k)
  {
    var s := "[" + l + "](" + h + ")" + rest;
    var k := |l|;
    assert s[0] == '[' && s[1..1 + k] == l;
    assert s[1 + k] == ']' && s[2 + k] == '(';
    assert s[3 + k..3 + k + |h|] == h && s[3 + k + |h|] == ')';
    LabelSplit(s, k, h);
  }

  /** A label of `k` characters without `]`, then `](`, an href `h` without `)` and `)`: the first split is at `k`. */
  lemma LabelSplit(s: string, k: nat, h: string)
    requires 1 <= k && 3 + k + |h| < |s| && s[0] == '['
    requires NoLineTerminator(s[1..1 + k]) && Avoids(s[1..1 + k], ']')
    requires s[1 + k] == ']' && s[2 + k] == '('
    requires |h| > 0 && NoLineTerminator(h) && Avoids(h, ')')
    requires s[3 + k..3 + k + |h|] == h && s[3 + k + |h|] == ')'
    ensures LinkSplit(s, k) && LinkOf(s, k) == Link(s[1..1 + k], h)
    ensures forall k' :: 1 <= k' < k ==> !LinkSplit(s, k')
  {
    assert s[1 + k..1 + k + 2] == "](";
    HrefGroup(s, 3 + k, h);
    forall k' | 1 <= k' < k ensures !LinkSplit(s, k') {
      assert s[1 + k'] == s[1..1 + k][k'];
    }
  }

  /** The lazy href group takes all of `h` when `)` follows it and `h` holds no `)`. */
  lemma HrefGroup(s: string, p: nat, h: string)
    requires |h| > 0 && NoLineTerminator(h) && Avoids(h, ')')
    requires p + |h| < |s| && s[p..p + |h|] == h && s[p + |h|] == ')'
    ensures LazyGroup(s, p, ")") == Some(|h|) && s[p..p + LazyGroup(s, p, ")").value] == h
  {
    assert s[p + |h|..p + |h| + 1] == ")";
    forall j | 1 <= j < |h| ensures !ClosesAfter(s, p, ")", j) {
      assert s[p + j] == h[j];
    }
    LazyGroupIs(s, p, ")", |h|);
  }

  /** Text without special characters, followed by nothing or by a special character, is one plain span. */
  lemma {:induction false} PlainFront(t: string, rest: string)
    requires |t| > 0 && forall i :: 0 <= i < |t| ==> !IsSpecial(t[i])
    requires rest == [] || IsSpecial(rest[0])
    ensures Body(t + rest) == Advance([Plain(t)], rest)
  {
    var s := t + rest;
    assert s[..|t|] == t && s[|t|..] == rest;
    PlainStep(s, |t|);
  }

  /** One emitting iteration, seen from Scan. */
  lemma ScanStep(s: string, sp: Span, rest: string)
    requires s != [] && Body(s) == Advance([sp], rest) && |rest| < |s|
    ensures Scan(s) == Prepend([sp], Scan(rest))
  {
    ScanUnfold(s);
  }

  lemma BoldThen(t: string, rest: string)
    requires |t| > 0 && NoLineTerminator(t) && Avoids(t, '*')
    ensures Scan("**" + t + "**" + rest) == Prepend([Bold(t)], Scan(rest))
  {
    BoldFront(t, rest);
    ScanStep("**" + t + "**" + rest, Bold(t), rest);
  }

  lemma ItalicThen(t: string, rest: string)
    requires |t| > 0 && NoLineTerminator(t) && Avoids(t, '*')
    ensures Scan("*" + t + "*" + rest) == Prepend([Italic(t)], Scan(rest))
  {
    ItalicFront(t, rest);
    ScanStep("*" + t + "*" + rest, Italic(t), rest);
  }

  lemma CodeThen(t: string, rest: string)
    requires |t| > 0 && NoLineTerminator(t) && Avoids(t, '`')
    ensures Scan("`" + t + "`" + rest) == Prepend([Code(t)], Scan(rest))
  {
    CodeFront(t, rest);
    ScanStep("`" + t + "`" + rest, Code(t), rest);
  }

  lemma LinkThen(l: string, h: string, rest: string)
    requires |l| > 0 && NoLineTerminator(l) && Avoids(l, ']')
    requires |h| > 0 && NoLineTerminator(h) && Avoids(h, ')')
    ensures Scan("[" + l + "](" + h + ")" + rest) == Prepend([Link(l, h)], Scan(rest))
  {
    LinkFront(l, h, rest);
    ScanStep("[" + l + "](" + h + ")" + rest, Link(l, h), rest);
  }

  lemma PlainThen(t: string, rest: string)
    requires |t| > 0 && forall i :: 0 <= i < |t| ==> !IsSpecial(t[i])
    requires rest == [] || IsSpecial(rest[0])
    ensures Scan(t + rest) == Prepend([Plain(t)], Scan(rest))
  {
    PlainFront(t, rest);
    ScanStep(t + rest, Plain(t), rest);
  }

  // The example below is built from its end, one span per lemma, so that each proof unfolds the scanner once.

  lemma CodeOnly(c: string)
    requires |c| > 0 && NoLineTerminator(c) && Avoids(c, '`')
    ensures Scan("`" + c + "`" + []) == Done([Code(c)])
  {
    CodeThen(c, []);
    assert Scan([]) == Done([]);
    assert [Code(c)] + [] == [Code(c)];
  }

  lemma PlainCode(sep: string, c: string)
    requires |sep| > 0 && forall k :: 0 <= k < |sep| ==> !IsSpecial(sep[k])
    requires |c| > 0 && NoLineTerminator(c) && Avoids(c, '`')
    ensures Scan(sep + ("`" + c + "`" + [])) == Done([Plain(sep), Code(c)])
  {
    CodeOnly(c);
    PlainThen(sep, "`" + c + "`" + []);
    assert [Plain(sep)] + [Code(c)] == [Plain(sep), Code(c)];
  }

  lemma ItalicPlainCode(i: string, sep: string, c: string)
    requires |i| > 0 && NoLineTerminator(i) && Avoids(i, '*')
    requires |sep| > 0 && forall k :: 0 <= k < |sep| ==> !IsSpecial(sep[k])
    requires |c| > 0 && NoLineTerminator(c) && Avoids(c, '`')
    ensures Scan("*" + i + "*" + (sep + ("`" + c + "`" + []))) == Done([Italic(i), Plain(sep), Code(c)])
  {
    PlainCode(sep, c);
    ItalicThen(i, sep + ("`" + c + "`" + []));
    assert [Italic(i)] + [Plain(sep), Code(c)] == [Italic(i), Plain(sep), Code(c)];
  }

  lemma PlainItalicPlainCode(sep: string, i: string, c: string)
    requires |i| > 0 && NoLineTerminator(i) && Avoids(i, '*')
    requires |sep| > 0 && forall k :: 0 <= k < |sep| ==> !IsSpecial(sep[k])
    requires |c| > 0 && NoLineTerminator(c) && Avoids(c, '`')
    ensures Scan(sep + ("*" + i + "*" + (sep + ("`" + c + "`" + [])))) ==
      Done([Plain(sep), Italic(i), Plain(sep), Code(c)])
  {
    ItalicPlainCode(i, sep, c);
    PlainThen(sep, "*" + i + "*" + (sep + ("`" + c + "`" + [])));
    assert [Plain(sep)] + [Italic(i), Plain(sep), Code(c)] == [Plain(sep), Italic(i), Plain(sep), Code(c)];
  }

  /** Spans written one after the other are read one after the other: bold, plain, italic, plain, code. */
  lemma {:induction false} MixedSpans(b: string, sep: string, i: string, c: string)
    requires |b| > 0 && |i| > 0 && |c| > 0 && |sep| > 0
    requires NoLineTerminator(b) && NoLineTerminator(i) && NoLineTerminator(c)
    requires Avoids(b, '*') && Avoids(i, '*') && Avoids(c, '`')
    requires forall k :: 0 <= k < |sep| ==> !IsSpecial(sep[k])
    ensures Scan("**" + b + "**" + (sep + ("*" + i + "*" + (sep + ("`" + c + "`" + []))))) ==
      Done([Bold(b), Plain(sep), Italic(i), Plain(sep), Code(c)])
  {
    PlainItalicPlainCode(sep, i, c);
    var spans := [Plain(sep), Italic(i), Plain(sep), Code(c)];
    BoldBefore(b, sep + ("*" + i + "*" + (sep + ("`" + c + "`" + []))), spans);
    ConsSpans(Bold(b), spans);
  }

  lemma ConsSpans(x: Span, spans: seq<Span>)
    requires |spans| == 4
    ensures [x] + spans == [x, spans[0], spans[1], spans[2], spans[3]]
  {
  }

  lemma BoldBefore(t: string, rest: string, spans: seq<Span>)
    requires |t| > 0 && NoLineTerminator(t) && Avoids(t, '*')
    requires Scan(rest) == Done(spans)
    ensures Scan("**" + t + "**" + rest) == Done([Bold(t)] + spans)
  {
    BoldThen(t, rest);
  }
}
