/**
 * The inline scanner `parseInline` of the markdown renderer in src/App.jsx.
 * Each regex of the scanner is an explicit prefix matcher; the lazy group `(.+?)`
 * takes the shortest non-empty run of characters other than line terminators
 * that is followed by the closing delimiter.
 */
module Inline {
  import opened Text
  import opened Outcomes

  /** The spans the scanner emits: <span>, <strong>, <em>, <code> and <a href>. */
  datatype Span =
    | Plain(text: string)
    | Bold(text: string)
    | Italic(text: string)
    | Code(text: string)
    | Link(caption: string, href: string)

  /** What `parseInline` returns: its parts, or the text itself when it produced none. */
  datatype Inline = Parts(spans: seq<Span>) | Raw(text: string)

  /** The markdown text a span is recognised from. */
  function SpanSource(sp: Span): string {
    match sp
    case Plain(t) => t
    case Bold(t) => "**" + t + "**"
    case Italic(t) => "*" + t + "*"
    case Code(t) => "`" + t + "`"
    case Link(l, h) => "[" + l + "](" + h + ")"
  }

  function Source(spans: seq<Span>): string {
    if spans == [] then "" else SpanSource(spans[0]) + Source(spans[1..])
  }

  predicate OccursAt(s: string, at: nat, close: string) {
    at + |close| <= |s| && s[at..at + |close|] == close
  }

  /** `close` follows the first `k` characters from `start`. */
  predicate ClosesAfter(s: string, start: nat, close: string, k: nat) {
    OccursAt(s, start + k, close)
  }

  /** `(.+?)` can take exactly the `k` characters from `start`: none is a line terminator and `close` follows them. */
  predicate LazyFits(s: string, start: nat, close: string, k: nat) {
    1 <= k && start + k <= |s| && NoLineTerminator(s[start..start + k]) && ClosesAfter(s, start, close, k)
  }

  /** The regex fragment `(.+?)` followed by the literal `close`, tried at `start`: how many characters the lazy group takes. */
  function LazyGroup(s: string, start: nat, close: string): (r: Option<nat>)
    requires start <= |s| && |close| > 0
    ensures r.Some? ==> LazyFits(s, start, close, r.value)
    ensures r.Some? ==> forall k :: 1 <= k < r.value ==> !ClosesAfter(s, start, close, k)
    ensures r.None? ==> forall k :: !LazyFits(s, start, close, k)
  {
    if start < |s| && !IsLineTerminator(s[start]) then Extend(s, start, close, 1) else None
  }

  /** The lazy group holds `k` characters: tries `close` after them, and otherwise takes one character more. */
  function Extend(s: string, start: nat, close: string, k: nat): (r: Option<nat>)
    requires |close| > 0 && 1 <= k && start + k <= |s| && NoLineTerminator(s[start..start + k])
    requires forall j :: 1 <= j < k ==> !ClosesAfter(s, start, close, j)
    ensures r.Some? ==> LazyFits(s, start, close, r.value)
    ensures r.Some? ==> forall j :: 1 <= j < r.value ==> !ClosesAfter(s, start, close, j)
    ensures r.None? ==> forall j :: !LazyFits(s, start, close, j)
    decreases |s| - start - k
  {
    if ClosesAfter(s, start, close, k) then Some(k)
    else if start + k == |s| || IsLineTerminator(s[start + k]) then
      NoFitBeyond(s, start, close, k);
      None
    else
      assert s[start..start + k + 1] == s[start..start + k] + [s[start + k]];
      Extend(s, start, close, k + 1)
  }

  /** The lazy group cannot grow past the end of the text or over a line terminator. */
  lemma NoFitBeyond(s: string, start: nat, close: string, k: nat)
    requires start + k <= |s| && (start + k == |s| || IsLineTerminator(s[start + k]))
    ensures forall j :: k < j ==> !LazyFits(s, start, close, j)
  {
  }

  /** A pattern that matched at the front of the text: the span it emits and how many characters it consumes. */
  datatype Match = Match(span: Span, len: nat)

  /** What a matcher promises: the consumed prefix is exactly the span's markdown source. */
  predicate Consumes(s: string, m: Match) {
    0 < m.len <= |s| && s[..m.len] == SpanSource(m.span)
  }

  // The regex `^\*\*(.+?)\*\*` of the bold branch.
  function BoldAt(s: string): (r: Option<Match>)
    ensures r.Some? ==> Consumes(s, r.value) && r.value.span.Bold?
  {
    if StartsWith(s, "**") then
      match LazyGroup(s, 2, "**")
      case Some(k) =>
        assert s[..2 + k + 2] == "**" + s[2..2 + k] + "**";
        Some(Match(Bold(s[2..2 + k]), 2 + k + 2))
      case None => None
    else None
  }

  // The regex `^\*(.+?)\*` of the italic branch.
  function ItalicAt(s: string): (r: Option<Match>)
    ensures r.Some? ==> Consumes(s, r.value) && r.value.span.Italic?
  {
    if StartsWith(s, "*") then
      match LazyGroup(s, 1, "*")
      case Some(k) =>
        assert s[..1 + k + 1] == "*" + s[1..1 + k] + "*";
        Some(Match(Italic(s[1..1 + k]), 1 + k + 1))
      case None => None
    else None
  }

  // The regex `^`(.+?)`` of the inline-code branch.
  function CodeAt(s: string): (r: Option<Match>)
    ensures r.Some? ==> Consumes(s, r.value) && r.value.span.Code?
  {
    if StartsWith(s, "`") then
      match LazyGroup(s, 1, "`")
      case Some(k) =>
        assert s[..1 + k + 1] == "`" + s[1..1 + k] + "`";
        Some(Match(Code(s[1..1 + k]), 1 + k + 1))
      case None => None
    else None
  }

  /**
   * The link regex `^\[(.+?)\]\((.+?)\)` can split the text with a label of `k` characters: the label
   * holds no line terminator, `](` follows it, and the lazy href group fits after that.
   */
  predicate LinkSplit(s: string, k: nat) {
    1 <= k && 3 + k <= |s| && s[0] == '[' && NoLineTerminator(s[1..1 + k]) &&
    OccursAt(s, 1 + k, "](") && LazyGroup(s, 3 + k, ")").Some?
  }

  /** The link a split with a label of `k` characters gives. */
  function LinkOf(s: string, k: nat): Span
    requires LinkSplit(s, k)
  {
    Link(s[1..1 + k], s[3 + k..3 + k + LazyGroup(s, 3 + k, ")").value])
  }

  /** How many characters a split with a label of `k` characters consumes. */
  function LinkLength(s: string, k: nat): nat
    requires LinkSplit(s, k)
  {
    3 + k + LazyGroup(s, 3 + k, ")").value + 1
  }

  lemma LinkConsumes(s: string, k: nat)
    requires LinkSplit(s, k)
    ensures Consumes(s, Match(LinkOf(s, k), LinkLength(s, k)))
  {
    var j := LazyGroup(s, 3 + k, ")").value;
    var n := 3 + k + j + 1;
    assert s[..1] == "[" && s[1 + k..3 + k] == "](" && s[3 + k + j..n] == ")";
    assert s[..n] == s[..1] + s[1..1 + k] + s[1 + k..3 + k] + s[3 + k..3 + k + j] + s[3 + k + j..n];
  }

  // The regex `^\[(.+?)\]\((.+?)\)` of the link branch. When no href can follow a label, the engine lets the (lazy) label grow.
  function LinkAt(s: string): (r: Option<Match>)
    ensures r.Some? ==> Consumes(s, r.value) && r.value.span.Link?
  {
    if StartsWith(s, "[") && 1 < |s| && !IsLineTerminator(s[1]) then
      assert s[0] == s[..1][0];
      LinkFrom(s, 1)
    else None
  }

  /**
   * The link regex takes the shortest label that allows a split, with the shortest href after it,
   * and fails exactly when no label length allows one.
   */
  lemma LinkAtIs(s: string)
    ensures LinkAt(s).None? <==> forall k :: !LinkSplit(s, k)
    ensures LinkAt(s).Some? ==> var c := |LinkAt(s).value.span.caption|;
      LinkSplit(s, c) && LinkAt(s).value.span == LinkOf(s, c) && forall k :: 1 <= k < c ==> !LinkSplit(s, k)
  {
    if StartsWith(s, "[") && 1 < |s| && !IsLineTerminator(s[1]) {
      assert s[0] == s[..1][0];
      LinkFromIs(s, 1);
    } else {
      NoLinkSplit(s);
    }
  }

  /** A text that does not start with `[` and a character `.` matches has no link split. */
  lemma NoLinkSplit(s: string)
    requires !(StartsWith(s, "[") && 1 < |s| && !IsLineTerminator(s[1]))
    ensures forall k :: !LinkSplit(s, k)
  {
    forall k: nat ensures !LinkSplit(s, k) {
      if 1 <= k && 3 + k <= |s| {
        assert s[..1] == [s[0]] && s[1] == s[1..1 + k][0];
      }
    }
  }

  /** The label cannot grow past the end of the text or over a line terminator. */
  lemma NoLinkBeyond(s: string, k: nat)
    requires 1 + k <= |s| && (1 + k == |s| || IsLineTerminator(s[1 + k]))
    ensures forall k' :: k < k' ==> !LinkSplit(s, k')
  {
    forall k' | k < k' ensures !LinkSplit(s, k') {
      if 1 + k' <= |s| {
        assert s[1..1 + k'][k] == s[1 + k];
      }
    }
  }

  /** The label group holds the `k` characters after '[': the shortest label from `k` on that a split allows. */
  function LinkFrom(s: string, k: nat): (r: Option<Match>)
    requires 1 <= k && 1 + k <= |s| && s[0] == '[' && NoLineTerminator(s[1..1 + k])
    ensures r.Some? ==> Consumes(s, r.value) && r.value.span.Link?
    decreases |s| - k
  {
    if LinkSplit(s, k) then
      LinkConsumes(s, k);
      Some(Match(LinkOf(s, k), LinkLength(s, k)))
    else if 1 + k == |s| || IsLineTerminator(s[1 + k]) then None
    else
      assert s[1..1 + k + 1] == s[1..1 + k] + [s[1 + k]];
      LinkFrom(s, k + 1)
  }

  /** LinkFrom settles on the shortest label from `k` on that allows a split, and fails exactly when there is none. */
  lemma {:induction false} LinkFromIs(s: string, k: nat)
    requires 1 <= k && 1 + k <= |s| && s[0] == '[' && NoLineTerminator(s[1..1 + k])
    ensures LinkFrom(s, k).None? <==> forall k' :: k <= k' ==> !LinkSplit(s, k')
    ensures LinkFrom(s, k).Some? ==> var c := |LinkFrom(s, k).value.span.caption|;
      k <= c && LinkSplit(s, c) && LinkFrom(s, k).value.span == LinkOf(s, c) &&
      forall k' :: k <= k' < c ==> !LinkSplit(s, k')
    decreases |s| - k
  {
    if LinkSplit(s, k) {
      assert LinkFrom(s, k).value.span == LinkOf(s, k);
      assert |LinkOf(s, k).caption| == |s[1..1 + k]| == k;
    } else if 1 + k == |s| || IsLineTerminator(s[1 + k]) {
      NoLinkBeyond(s, k);
    } else {
      assert s[1..1 + k + 1] == s[1..1 + k] + [s[1 + k]];
      LinkFromIs(s, k + 1);
      var r := LinkFrom(s, k + 1);
      assert LinkFrom(s, k) == r;
      if r.None? {
        NoSplitFrom(s, k);
      } else {
        NoSplitBetween(s, k, |r.value.span.caption|);
      }
    }
  }

  /** No split at `k` and none from `k + 1` on: none from `k` on. */
  lemma NoSplitFrom(s: string, k: nat)
    requires !LinkSplit(s, k) && forall k' :: k + 1 <= k' ==> !LinkSplit(s, k')
    ensures forall k' :: k <= k' ==> !LinkSplit(s, k')
  {
  }

  /** No split at `k` and none from `k + 1` below `hi`: none from `k` below `hi`. */
  lemma NoSplitBetween(s: string, k: nat, hi: nat)
    requires !LinkSplit(s, k) && forall k' :: k + 1 <= k' < hi ==> !LinkSplit(s, k')
    ensures forall k' :: k <= k' < hi ==> !LinkSplit(s, k')
  {
  }

  /** The characters in the class `[\*`\[]`. */
  predicate IsSpecial(c: char) { c == '*' || c == '`' || c == '[' }

  /** `s.search(/[\*`\[]/)`: the index of the first special character, or -1. */
  function SearchSpecial(s: string): (r: int)
    ensures -1 <= r < |s|
    ensures r == -1 <==> forall i :: 0 <= i < |s| ==> !IsSpecial(s[i])
    ensures r >= 0 ==> IsSpecial(s[r]) && forall i :: 0 <= i < r ==> !IsSpecial(s[i])
  {
    if s == [] then -1
    else if IsSpecial(s[0]) then 0
    else
      var r := SearchSpecial(s[1..]);
      if r == -1 then -1 else r + 1
  }

  /** The text starts with a special character that begins none of the four patterns. */
  predicate Stalls(s: string) {
    |s| > 0 && IsSpecial(s[0]) &&
    BoldAt(s).None? && ItalicAt(s).None? && CodeAt(s).None? && LinkAt(s).None?
  }

  /** A plain span is non-empty and holds no special character. */
  predicate PlainOk(sp: Span) {
    sp.Plain? ==> |sp.text| > 0 && forall i :: 0 <= i < |sp.text| ==> !IsSpecial(sp.text[i])
  }

  /** What one iteration of the scanner's loop pushes, and the `remaining` it leaves. */
  datatype Advance = Advance(emitted: seq<Span>, rest: string)

  function Take(s: string, m: Match): (a: Advance)
    requires Consumes(s, m)
    ensures a.emitted == [m.span] && |a.rest| < |s| && s == SpanSource(m.span) + a.rest
  {
    assert s == s[..m.len] + s[m.len..];
    Advance([m.span], s[m.len..])
  }

  /** The text before the next special character, pushed as plain when it is not empty. */
  function PlainChunk(remaining: string): (a: Advance)
    requires |remaining| > 0
    ensures IsSpecial(remaining[0]) ==> a == Advance([], remaining)
    ensures !IsSpecial(remaining[0]) ==>
      (|a.rest| < |remaining| && |a.emitted| == 1 &&
       remaining == SpanSource(a.emitted[0]) + a.rest && a.emitted[0].Plain? && PlainOk(a.emitted[0]))
  {
    var next := SearchSpecial(remaining);
    var chunk := if next == -1 then remaining else remaining[..next];
    assert remaining == chunk + remaining[|chunk|..];
    Advance(if chunk != [] then [Plain(chunk)] else [], remaining[|chunk|..])
  }

  /** One iteration of `while (remaining.length > 0)`: the patterns are tried as bold, italic, code, link; otherwise the text before the next special character is plain. */
  function Body(remaining: string): (a: Advance)
    requires |remaining| > 0
    ensures Stalls(remaining) ==> a == Advance([], remaining)
    ensures !Stalls(remaining) ==> |a.rest| < |remaining| && |a.emitted| == 1
    ensures !Stalls(remaining) ==> remaining == SpanSource(a.emitted[0]) + a.rest
    ensures forall k :: 0 <= k < |a.emitted| ==> PlainOk(a.emitted[k])
  {
    if BoldAt(remaining).Some? then Take(remaining, BoldAt(remaining).value)
    else if ItalicAt(remaining).Some? then Take(remaining, ItalicAt(remaining).value)
    else if CodeAt(remaining).Some? then Take(remaining, CodeAt(remaining).value)
    else if LinkAt(remaining).Some? then Take(remaining, LinkAt(remaining).value)
    else PlainChunk(remaining)
  }

  function Prepend(spans: seq<Span>, o: Outcome<seq<Span>>): Outcome<seq<Span>> {
    match o
    case Hangs => Hangs
    case Done(rest) => Done(spans + rest)
  }

  /** The spans the loop pushes for `remaining`, or Hangs when an iteration leaves `remaining` unchanged, so that the loop repeats it forever. */
  function Scan(remaining: string): (r: Outcome<seq<Span>>)
    ensures r.Done? ==> Source(r.value) == remaining
    decreases |remaining|
  {
    if remaining == [] then Done([])
    else
      var a := Body(remaining);
      if |a.rest| < |remaining| then
        var r := Prepend(a.emitted, Scan(a.rest));
        assert r.Done? ==> r.value[1..] == Scan(a.rest).value;
        r
      else Hangs
  }

  /** What `parseInline(text)` returns: the parts when there are any, else the text itself. */
  function InlineOf(text: string): (r: Outcome<Inline>)
    ensures r.Done? ==> (r.value.Raw? <==> text == [])
    ensures r.Done? && r.value.Raw? ==> r.value.text == text
    ensures r.Done? && r.value.Parts? ==> Source(r.value.spans) == text
  {
    match Scan(text)
    case Hangs => Hangs
    case Done(parts) => Done(if |parts| > 0 then Parts(parts) else Raw(text))
  }

  lemma PrependAssoc(parts: seq<Span>, sp: Span, o: Outcome<seq<Span>>)
    ensures Prepend(parts, Prepend([sp], o)) == Prepend(parts + [sp], o)
  {
    if o.Done? {
      assert parts + ([sp] + o.value) == (parts + [sp]) + o.value;
    }
  }

  /** Scan unfolded once: a stall hangs, any other iteration emits one span and goes on after it. */
  lemma ScanUnfold(text: string)
    requires text != []
    ensures Stalls(text) ==> Scan(text) == Hangs
    ensures !Stalls(text) ==> Scan(text) == Prepend(Body(text).emitted, Scan(Body(text).rest))
    ensures !Stalls(text) ==> text[|SpanSource(Body(text).emitted[0])|..] == Body(text).rest
  {
  }

  /** An iteration that consumes a match continues with the text after it. */
  lemma ScanTake(remaining: string, m: Match)
    requires |remaining| > 0 && 0 < m.len <= |remaining|
    requires Body(remaining) == Advance([m.span], remaining[m.len..])
    ensures Scan(remaining) == Prepend([m.span], Scan(remaining[m.len..]))
  {
  }

  /** `parseInline` as written: a loop that shrinks `remaining` and pushes to `parts`. It returns Hangs where the source would loop forever. */
  method ParseInline(text: string) returns (r: Outcome<Inline>)
    ensures r == InlineOf(text)
  {
    var parts: seq<Span> := [];
    var remaining := text;
    assert Scan(text).Done? ==> [] + Scan(text).value == Scan(text).value;
    while |remaining| > 0
      invariant Scan(text) == Prepend(parts, Scan(remaining))
      decreases |remaining|
    {
      var m: Match;
      if BoldAt(remaining).Some? {
        m := BoldAt(remaining).value;
      } else if ItalicAt(remaining).Some? {
        m := ItalicAt(remaining).value;
      } else if CodeAt(remaining).Some? {
        m := CodeAt(remaining).value;
      } else if LinkAt(remaining).Some? {
        m := LinkAt(remaining).value;
      } else {
        var next := SearchSpecial(remaining);
        var chunk := if next == -1 then remaining else remaining[..next];
        if chunk == [] {
          // `remaining` is left as it is: every later iteration repeats this one
          assert Stalls(remaining);
          return Hangs;
        }
        m := Match(Plain(chunk), |chunk|);
      }
      assert Body(remaining) == Advance([m.span], remaining[m.len..]);
      ScanTake(remaining, m);
      PrependAssoc(parts, m.span, Scan(remaining[m.len..]));
      parts := parts + [m.span];
      remaining := remaining[m.len..];
    }
    assert parts + [] == parts;
    r := if |parts| > 0 then Done(Parts(parts)) else Done(Raw(text));
  }
}
