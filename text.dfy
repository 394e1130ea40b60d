/** Character classes and JavaScript's `split('\n')`, restricted to ASCII. */
module Text {

  /** JavaScript's `\s` class, and the characters `trim()` removes, on ASCII. */
  predicate IsSpace(c: char) {
    c == ' ' || c == '\t' || c == '\n' || c == '\U{B}' || c == '\U{C}' || c == '\r'
  }

  /** The ASCII line terminators: the characters the regex `.` does not match. */
  predicate IsLineTerminator(c: char) { c == '\n' || c == '\r' }

  predicate NotLineTerminator(c: char) { !IsLineTerminator(c) }

  predicate NoLineTerminator(s: string) { forall i :: 0 <= i < |s| ==> !IsLineTerminator(s[i]) }

  /** `s.trim() === ''` */
  predicate IsBlank(s: string) { forall i :: 0 <= i < |s| ==> IsSpace(s[i]) }

  predicate StartsWith(s: string, prefix: string) { |prefix| <= |s| && s[..|prefix|] == prefix }

  /** The length of the longest run of characters of class `cls` starting at `p`. */
  function Run(s: string, p: nat, cls: char -> bool): (n: nat)
    requires p <= |s|
    ensures p + n <= |s|
    ensures forall i :: p <= i < p + n ==> cls(s[i])
    ensures p + n == |s| || !cls(s[p + n])
    decreases |s| - p
  {
    if p < |s| && cls(s[p]) then 1 + Run(s, p + 1, cls) else 0
  }

  /** A run over characters that all belong to the class reaches the end of the string. */
  lemma {:induction false} RunToEnd(s: string, p: nat, cls: char -> bool)
    requires p <= |s|
    requires forall i :: p <= i < |s| ==> cls(s[i])
    ensures Run(s, p, cls) == |s| - p
    decreases |s| - p
  {
    if p < |s| {
      RunToEnd(s, p + 1, cls);
    }
  }

  function IndexOfNewline(s: string): (i: nat)
    requires '\n' in s
    ensures i < |s| && s[i] == '\n' && '\n' !in s[..i]
  {
    if s[0] == '\n' then 0
    else
      var j := IndexOfNewline(s[1..]);
      assert s[..j + 1] == [s[0]] + s[1..][..j];
      j + 1
  }

  /** `lines.join('\n')` */
  function JoinLines(lines: seq<string>): string {
    if |lines| == 0 then ""
    else if |lines| == 1 then lines[0]
    else lines[0] + "\n" + JoinLines(lines[1..])
  }

  /** `s.split('\n')`: never empty, and the empty string gives one empty line. */
  function SplitLines(s: string): (lines: seq<string>)
    ensures |lines| >= 1
    ensures forall k :: 0 <= k < |lines| ==> '\n' !in lines[k]
    ensures JoinLines(lines) == s
    decreases |s|
  {
    if '\n' in s then
      var i := IndexOfNewline(s);
      var rest := SplitLines(s[i + 1..]);
      assert s == s[..i] + "\n" + s[i + 1..];
      [s[..i]] + rest
    else [s]
  }

  /** The first newline is the only newline with none before it. */
  lemma IndexOfNewlineIs(s: string, i: nat)
    requires i < |s| && s[i] == '\n' && '\n' !in s[..i]
    ensures IndexOfNewline(s) == i
  {
  }

  /** Splitting undoes joining lines that hold no newline. */
  lemma {:induction false} SplitJoin(lines: seq<string>)
    requires |lines| >= 1
    requires forall k :: 0 <= k < |lines| ==> '\n' !in lines[k]
    ensures SplitLines(JoinLines(lines)) == lines
  {
    if |lines| > 1 {
      var s := JoinLines(lines);
      var n := |lines[0]|;
      assert s == lines[0] + "\n" + JoinLines(lines[1..]);
      assert s[..n] == lines[0];
      IndexOfNewlineIs(s, n);
      assert s[n + 1..] == JoinLines(lines[1..]);
      SplitJoin(lines[1..]);
    }
  }

  /** A trailing newline adds one empty line. */
  lemma {:induction false} SplitTrailingNewline(s: string)
    ensures SplitLines(s + "\n") == SplitLines(s) + [""]
    decreases |s|
  {
    var t := s + "\n";
    if '\n' in s {
      var i := IndexOfNewline(s);
      assert t[..i] == s[..i];
      IndexOfNewlineIs(t, i);
      assert t[i + 1..] == s[i + 1..] + "\n";
      SplitTrailingNewline(s[i + 1..]);
      assert SplitLines(t) == [s[..i]] + SplitLines(s[i + 1..] + "\n");
    } else {
      assert t[..|s|] == s;
      IndexOfNewlineIs(t, |s|);
      assert t[|s| + 1..] == "";
      assert SplitLines(t) == [s] + SplitLines("");
    }
  }
}
