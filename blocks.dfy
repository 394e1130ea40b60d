/**
 * The line-level half of `parseMarkdown` (src/App.jsx): how each line is classified by the
 * regular expressions of the loop, and how the loop's state (the emitted blocks, the pending list
 * items, the list type, the open code block and its language) evolves line by line.
 * Blocks are kept raw here, with their text not yet run through the inline scanner.
 */
module BlockScan {
  import opened Text
  import opened Outcomes

  predicate IsDigit(c: char) { '0' <= c <= '9' }

  /** The regex class `\w`. */
  predicate IsWordChar(c: char) {
    'a' <= c <= 'z' || 'A' <= c <= 'Z' || IsDigit(c) || c == '_'
  }

  predicate IsHash(c: char) { c == '#' }

  /**
   * The tail `\s+(.+)` of a line regex, tried at `p` after the whitespace run has been cut back to
   * `j` characters: the first `j` that leaves a character `.` matches wins, and `(.+)` then takes
   * every character up to the next line terminator.
   */
  function GiveBack(s: string, p: nat, j: nat): (r: Option<string>)
    requires p + j <= |s|
    ensures r.Some? ==> |r.value| > 0 && NoLineTerminator(r.value)
    decreases j
  {
    if j == 0 then None
    else if p + j < |s| && NotLineTerminator(s[p + j]) then
      Some(s[p + j..p + j + Run(s, p + j, NotLineTerminator)])
    else GiveBack(s, p, j - 1)
  }

  /** What `\s+(.+)` captures when matched at `p`, backtracking into the whitespace as the regex does. */
  function SpacesThenText(s: string, p: nat): (r: Option<string>)
    requires p <= |s|
    ensures r.Some? ==> |r.value| > 0 && NoLineTerminator(r.value)
  {
    GiveBack(s, p, Run(s, p, IsSpace))
  }

  /** The language captured by the fence regex, when the line starts with three backticks. */
  function FenceLanguage(line: string): (r: Option<string>)
    ensures r.Some? <==> StartsWith(line, "```")
    ensures r.Some? ==> forall i :: 0 <= i < |r.value| ==> IsWordChar(r.value[i])
  {
    if StartsWith(line, "```") then Some(line[3..3 + Run(line, 3, IsWordChar)]) else None
  }

  /** Level and text of a heading: `#{1,6}` can only use the whole leading run of `#`. */
  function HeadingMatch(line: string): (r: Option<(nat, string)>)
    ensures r.Some? ==> 1 <= r.value.0 <= 6 && r.value.0 < |line|
    ensures r.Some? ==> (forall i :: 0 <= i < r.value.0 ==> line[i] == '#') && IsSpace(line[r.value.0])
  {
    var h := Run(line, 0, IsHash);
    if 1 <= h <= 6 then
      match SpacesThenText(line, h)
      case Some(text) => Some((h, text))
      case None => None
    else None
  }

  /** The item text of a `*` or `-` bullet line. */
  function BulletMatch(line: string): (r: Option<string>)
    ensures r.Some? ==> 1 < |line| && (line[0] == '*' || line[0] == '-') && IsSpace(line[1])
  {
    if |line| > 0 && (line[0] == '*' || line[0] == '-') then SpacesThenText(line, 1) else None
  }

  /** The item text of a numbered line: digits, a dot, whitespace, text. */
  function NumberedMatch(line: string): (r: Option<string>)
    ensures r.Some? ==> |line| > 0 && IsDigit(line[0])
  {
    var d := Run(line, 0, IsDigit);
    if d > 0 && d < |line| && line[d] == '.' then SpacesThenText(line, d + 1) else None
  }

  /** A horizontal rule: three or more dashes and nothing else. */
  predicate IsRule(line: string) {
    |line| >= 3 && forall i :: 0 <= i < |line| ==> line[i] == '-'
  }

  /** The quoted text of a `>` line. */
  function QuoteMatch(line: string): (r: Option<string>)
    ensures r.Some? ==> 1 < |line| && line[0] == '>' && IsSpace(line[1])
  {
    if |line| > 0 && line[0] == '>' then SpacesThenText(line, 1) else None
  }

  datatype LineKind =
    | FenceLine(language: string)
    | HeadingLine(level: nat, text: string)
    | BulletLine(text: string)
    | NumberedLine(text: string)
    | RuleLine
    | QuoteLine(text: string)
    | BlankLine
    | ParagraphLine(text: string)

  /** The kind of a line, tested in the loop's order: the first regex that matches decides. */
  function Classify(line: string): (k: LineKind)
    ensures k.FenceLine? <==> StartsWith(line, "```")
    ensures k.HeadingLine? ==> 1 <= k.level <= 6 && |k.text| > 0
    ensures (k.BulletLine? || k.NumberedLine? || k.QuoteLine?) ==> |k.text| > 0
    ensures k.BlankLine? ==> IsBlank(line)
    ensures k.ParagraphLine? ==> k.text == line && !IsBlank(line) && !IsRule(line)
  {
    match FenceLanguage(line)
    case Some(lang) => FenceLine(lang)
    case None =>
      match HeadingMatch(line)
      case Some((level, text)) => HeadingLine(level, text)
      case None =>
        match BulletMatch(line)
        case Some(text) => BulletLine(text)
        case None =>
          match NumberedMatch(line)
          case Some(text) => NumberedLine(text)
          case None =>
            if IsRule(line) then RuleLine
            else
              match QuoteMatch(line)
              case Some(text) => QuoteLine(text)
              case None => if IsBlank(line) then BlankLine else ParagraphLine(line)
  }

  datatype ListKind = Bullets | Numbers

  /** A block as pushed onto `elements`, before its text goes through the inline scanner. */
  datatype RawBlock =
    | RHeading(level: nat, text: string)
    | RParagraph(text: string)
    | RList(kind: ListKind, items: seq<string>)
    | RCode(language: string, lines: seq<string>)
    | RRule
    | RQuote(text: string)
    | RSpacer

  /** The loop's variables: `elements`, `listItems`, `listType`, `codeBlock` (None for null) and `codeLanguage`. */
  datatype ScanState = ScanState(
    out: seq<RawBlock>,
    items: seq<string>,
    kind: Option<ListKind>,
    code: Option<seq<string>>,
    lang: string)

  const Initial := ScanState([], [], None, None, "")

  /** `flushList`: pending items become one list, a bullet list exactly when the list type says so. */
  function Flush(st: ScanState): (r: ScanState)
    ensures |st.items| > 0 ==>
      r == st.(out := st.out + [RList(if st.kind == Some(Bullets) then Bullets else Numbers, st.items)],
               items := [], kind := None)
    ensures |st.items| == 0 ==> r == st
  {
    if |st.items| > 0 then
      var kind := if st.kind == Some(Bullets) then Bullets else Numbers;
      st.(out := st.out + [RList(kind, st.items)], items := [], kind := None)
    else st
  }

  /** Flush the pending list, then push one block. */
  function Emit(st: ScanState, b: RawBlock): ScanState {
    var f := Flush(st);
    f.(out := f.out + [b])
  }

  /** Add a list item, flushing first when the list type changes. */
  function AddItem(st: ScanState, kind: ListKind, text: string): ScanState {
    var f := if st.kind != Some(kind) then Flush(st).(kind := Some(kind)) else st;
    f.(items := f.items + [text])
  }

  /** The branches after the fence test, with no code block open. */
  function Outside(st: ScanState, kind: LineKind): ScanState
    requires !kind.FenceLine?
  {
    match kind
    case HeadingLine(level, text) => Emit(st, RHeading(level, text))
    case BulletLine(text) => AddItem(st, Bullets, text)
    case NumberedLine(text) => AddItem(st, Numbers, text)
    case RuleLine => Emit(st, RRule)
    case QuoteLine(text) => Emit(st, RQuote(text))
    case BlankLine => Emit(st, RSpacer)
    case ParagraphLine(text) => Emit(st, RParagraph(text))
  }

  /**
   * One iteration of the loop on a line of kind `kind`. The fence test comes first and matches every
   * line that starts with three backticks, so the closing branch after it is never taken.
   */
  function StepKind(st: ScanState, line: string, kind: LineKind): ScanState {
    if kind.FenceLine? then Flush(st).(code := Some([]), lang := kind.language)
    else
      match st.code
      case Some(body) =>
        if line == "```" then st.(out := st.out + [RCode(st.lang, body)], code := None, lang := "")
        else st.(code := Some(body + [line]))
      case None => Outside(st, kind)
  }

  function Step(st: ScanState, line: string): ScanState { StepKind(st, line, Classify(line)) }

  /** The loop run over `lines` from state `st`. */
  function FoldFrom(st: ScanState, lines: seq<string>): ScanState
    decreases |lines|
  {
    if lines == [] then st else Step(FoldFrom(st, lines[..|lines| - 1]), lines[|lines| - 1])
  }

  function Fold(lines: seq<string>): ScanState { FoldFrom(Initial, lines) }

  /** The blocks of `parseMarkdown`: the loop, then the final `flushList`. */
  function Blocks(lines: seq<string>): seq<RawBlock> { Flush(Fold(lines)).out }
}
