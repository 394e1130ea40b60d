# bomber chat cockpit: markdown renderer, reply selection, history and webhook lookup

This project models the core of the bomber chat cockpit in Dafny and proves properties of the model. It covers:

- **`MarkdownRenderer`** (src/App.jsx), which turns an assistant's reply into display elements.
  - `parseMarkdown` is a single pass over the lines of the reply. It uses the closure variables `elements`, `listItems`, `listType`, `codeBlock` and `codeLanguage`, and the helper `flushList`.
  - `parseInline` is a loop that matches bold, italic, inline code and links, in that order, with lazy regex groups. Any other text becomes plain spans.
- **`sendMessage`** (src/App.jsx):
  - it picks which text of the webhook response becomes the reply (`output` / `response` / `message` / `text`, else `JSON.stringify`, or the body text);
  - it updates the per-bot message map, as does `clearHistory`.
- **`BaseBot.resolve_webhook` and `BaseBot.to_config`** (bots/base.py): the webhook URL of a bot is looked up under each candidate key in turn, in the Streamlit secrets and then in the environment.

The modules:

- **`Text`**: `split('\n')` and the ASCII character classes `\s`, `\w`, `.` and `trim()`.
- **`Inline`**:
  - each regex of `parseInline` is an explicit prefix matcher;
  - `Body` is one iteration of the loop and `Scan` is the whole loop;
  - `ParseInline` is the loop itself, as a `while` method proved equal to `InlineOf`;
  - a special character that starts no pattern leaves `remaining` unchanged, and the source then loops forever; the model returns `Hangs` there.
- **`BlockScan`**:
  - line classification in the order of the `if` chain;
  - the loop state `ScanState`, with `Step` for one iteration, and `Fold` / `Blocks` for the loop followed by the final `flushList`.
- **`Renderer`**:
  - the class `MarkdownScanner` holds the closure's variables as fields. Its methods `FlushList`, `QueueItem`, `OpenCode`, `AddCodeLine`, `ScanOutside` and `ScanLine` update those fields as the source does.
  - `ParseMarkdown` is the `while` loop, proved equal to `Render`. `Render` runs every block's text through `parseInline`, and hangs when any of those calls hangs.
- **`InlineFacts`, `BlockScanFacts`, `RendererFacts`**: properties of the renderer.
- **`Corrected`**: the evidently intended behaviour of the two defects listed under Findings, proved, and shown to agree with the model wherever the source does what was intended.
- **`Chat`**: reply selection, how a response becomes the assistant's message (`Receive`, `ReplyMessage`), and the history map.
- **`Webhook`**: the candidate keys, the lookup loop (`ResolveWebhook`, a `while` method proved equal to `Lookup`) and `ToConfig`. It also states the order the docstring of `resolve_webhook` lists (`LookupDocumented`), which differs from the loop's order (see Findings).

In three places the code does not do what a reader of the renderer would expect. The model follows the code, and the two that are defects are listed under Findings:

- **A fenced code block** is expected to become a code block. In the code (src/App.jsx:291-317), the fence-open test also matches the closing fence. The code block is therefore never closed and never pushed, not even at the end of the input, and everything from the first fence line on renders as nothing (`FencedMessageEmpty`, `FenceSwallowsRest`).
- **The empty message** might be expected to render as nothing. In the code, `''.split('\n')` (src/App.jsx:208) is one empty line, and a blank line pushes a spacer (src/App.jsx:388-393), so it renders as one spacer (`RenderEmpty`).
- **Every message** is expected to render. In the code, the loop of `parseInline` (src/App.jsx:242-282) never ends on texts such as `a * b` or `[x]` (`StarWithoutPartnerHangs`, `StarMessageHangs`).

## Model

| member | source | states |
|---|---|---|
| Text.SplitLines | src/App.jsx:208 | `text.split('\n')` is never empty, no piece holds a newline, and joining the pieces with newlines gives the text back |
| Text.SplitJoin | src/App.jsx:208 | splitting undoes joining lines that hold no newline |
| Text.SplitTrailingNewline | src/App.jsx:208 | a trailing newline adds exactly one empty line |
| Inline.LazyGroup | src/App.jsx:244-245 | `(.+?)` followed by the closer takes the shortest non-empty run without line terminators that the closer follows; None exactly when no run fits |
| Inline.BoldAt | src/App.jsx:244-247 | a bold match consumes exactly `**t**` and emits `<strong>` |
| Inline.ItalicAt | src/App.jsx:250-253 | an italic match consumes exactly `*t*` and emits `<em>` |
| Inline.CodeAt | src/App.jsx:256-263 | a code match consumes exactly the backtick-quoted text and emits `<code>` |
| Inline.LinkAt | src/App.jsx:266-273 | a link match consumes exactly `[label](href)` and emits `<a>` |
| Inline.LinkAtIs | src/App.jsx:266-273 | the link regex fails exactly when no label length gives `[label](href)`; otherwise its label is the shortest that does, and its href is the lazy group after that label |
| Inline.LinkFrom | src/App.jsx:266-273 | the lazy label grows until a `](href)` can follow it; whatever it returns consumes exactly its source |
| Inline.LinkFromIs | src/App.jsx:266-273 | growing the label from length `k` finds nothing exactly when no label of length `k` or more fits; otherwise it takes the shortest that fits, with its href |
| Inline.SearchSpecial | src/App.jsx:277 | `search(/[\*`\[]/)` is -1 exactly when no `*`, backtick or `[` occurs, and otherwise the index of the first one |
| Inline.Take | src/App.jsx:247 | slicing off a match leaves a shorter rest, and the text is the match's source followed by that rest |
| Inline.PlainChunk | src/App.jsx:276-280 | the text before the next special character becomes one plain span when it is not empty; at a special character nothing is emitted and nothing consumed |
| Inline.Body | src/App.jsx:243-281 | one iteration: on a stall nothing is emitted and `remaining` is unchanged; otherwise exactly one span whose source is the consumed prefix, and plain spans are non-empty and free of special characters |
| Inline.Scan | src/App.jsx:242-282 | when the loop ends, the spans spell out the text |
| Inline.InlineOf | src/App.jsx:237-285 | `parseInline` returns the text itself exactly when it is empty, and otherwise parts that spell out the text |
| Inline.ScanUnfold | src/App.jsx:242-282 | a stall makes the loop hang; any other iteration emits one span and goes on with the rest |
| Inline.ParseInline | src/App.jsx:237-285 | the loop, proved to return what `InlineOf` specifies, and Hangs exactly where the source loops forever |
| InlineFacts.PlainSpansHaveNoSpecials | src/App.jsx:276-281 | every plain span of a finished scan is non-empty and holds no special character |
| InlineFacts.ReachedIsSuffix | src/App.jsx:242-282 | every value `remaining` takes is a suffix of the text |
| InlineFacts.HangsIffStallReached | src/App.jsx:242-282 | the loop never ends exactly when `remaining` reaches a text that starts with a special character opening no pattern |
| InlineFacts.LazyGroupIs | src/App.jsx:244-245 | the lazy group takes `k` characters when they fit and no shorter run does |
| InlineFacts.LazyGroupFails | src/App.jsx:244-245 | without its closing character the lazy group never matches |
| InlineFacts.PlainStep | src/App.jsx:276-281 | text that does not start with a special character is one plain span up to the next special character |
| InlineFacts.NoPatternAt | src/App.jsx:244-274 | no pattern matches at a character that is not special |
| InlineFacts.StarWithoutPartnerHangs | src/App.jsx:242-282 | `parseInline("a * b")` never returns |
| InlineFacts.BracketWithoutHrefHangs | src/App.jsx:266-282 | `parseInline("[x]")` never returns |
| InlineFacts.BoldStep | src/App.jsx:244-248 | a bold match wins whenever `**x**` matches |
| InlineFacts.ItalicStep | src/App.jsx:250-254 | an italic match is taken when no bold match is possible |
| InlineFacts.CodeStep | src/App.jsx:256-264 | a backtick-quoted run is inline code |
| InlineFacts.BoldFront | src/App.jsx:244-248 | `**t**` is bold when `t` holds no `*` and no line terminator, and scanning continues right after it |
| InlineFacts.ItalicFront | src/App.jsx:250-254 | `*t*` is italic when `t` holds no `*` and no line terminator |
| InlineFacts.CodeFront | src/App.jsx:256-264 | backtick-quoted `t` is code when `t` holds no backtick and no line terminator |
| InlineFacts.LinkFront | src/App.jsx:266-274 | `[l](h)` is a link with label `l` and href `h` when `l` holds no `]`, `h` no `)`, and neither is empty or holds a line terminator; scanning continues right after it |
| InlineFacts.LinkThen | src/App.jsx:242-274 | a scan of `[l](h)` followed by more text is that link followed by the scan of the rest |
| InlineFacts.PlainFront | src/App.jsx:276-281 | text without special characters before a special character, or before the end, is one plain span |
| InlineFacts.MixedSpans | src/App.jsx:242-284 | bold, plain, italic, plain and code written one after the other are read as those five spans in order |
| BlockScan.GiveBack | src/App.jsx:327 | the capture of `\s+(.+)` after the engine gives back whitespace is non-empty and holds no line terminator |
| BlockScan.SpacesThenText | src/App.jsx:343 | what `\s+(.+)` captures is non-empty and holds no line terminator |
| BlockScan.FenceLanguage | src/App.jsx:291-293 | the fence test matches exactly the lines that start with three backticks, and the language holds only word characters |
| BlockScan.HeadingMatch | src/App.jsx:327-331 | a heading has one to six leading `#` followed by whitespace |
| BlockScan.BulletMatch | src/App.jsx:343-344 | a bullet line starts with `*` or `-` followed by whitespace |
| BlockScan.NumberedMatch | src/App.jsx:355-356 | a numbered line starts with a digit |
| BlockScan.QuoteMatch | src/App.jsx:375-377 | a quote line starts with `>` followed by whitespace |
| BlockScan.Classify | src/App.jsx:291-402 | a line is a fence exactly when it starts with three backticks; headings have level 1 to 6 and non-empty text; items and quotes have non-empty text; blank lines trim to nothing; a paragraph is the whole line, neither blank nor a rule |
| BlockScan.Flush | src/App.jsx:215-235 | `flushList`: pending items become one list at the end of `elements`, bullets exactly when the list type is bullets, and the items and type are reset; with nothing pending nothing changes |
| BlockScan.Emit | src/App.jsx:326-402 | the branches that call `flushList` and then push one element; `StepExtends` and `StepWellFormed` state what they keep |
| BlockScan.AddItem | src/App.jsx:343-364 | the item branches: a change of list type flushes first; `StepItem`, `QueueStep` and `ItemRunIsOneList` state its effect |
| BlockScan.Outside | src/App.jsx:326-402 | the branches after the code-block tests, in the order of the `if` chain; `ScanOutside` is proved to update the fields as it says |
| BlockScan.StepKind | src/App.jsx:288-403 | one iteration, with the fence test first; `StepCode`, `CodeStaysOpen` and `StepWellFormed` state its properties |
| BlockScan.Step | src/App.jsx:288-403 | one iteration on a line, classified by `Classify`; `ScanLine` is proved to update the fields as it says |
| BlockScan.FoldFrom | src/App.jsx:287-403 | the loop over the lines from a given state; `PrefixBlocks` and `CodeOpenIff` state its properties |
| BlockScan.Fold | src/App.jsx:207-403 | the loop from the initial locals |
| BlockScan.Blocks | src/App.jsx:206-406 | the loop, then the final `flushList`; `BlocksAreGood`, `NoCodeBlocks`, `FenceSwallowsRest` and `ItemRunIsOneList` state what it returns |
| BlockScanFacts.SpacesThenTextPlain | src/App.jsx:327-377 | on a line, `\s+(.+)` captures everything after the whitespace, or only its last space when nothing else follows two or more spaces, or nothing after a single trailing space |
| BlockScanFacts.HeadingLevel | src/App.jsx:327-331 | one to six `#`, a space and text make a heading of that level with that text |
| BlockScanFacts.TooManyHashes | src/App.jsx:327 | seven or more leading `#` make a paragraph |
| BlockScanFacts.BulletItem | src/App.jsx:343-349 | `*` or `-`, a space and text make a bullet item with that text |
| BlockScanFacts.QuoteItem | src/App.jsx:375-381 | `>`, a space and text make a quote of that text |
| BlockScanFacts.BlankLineIsBlank | src/App.jsx:388-393 | a line of whitespace only is blank and pushes a spacer |
| BlockScanFacts.SpacedDashesAreBullet | src/App.jsx:343-367 | "- - -" is a bullet item "- -", because the bullet test comes before the rule test |
| BlockScanFacts.DashesAreRule | src/App.jsx:367 | three or more dashes alone make a horizontal rule |
| BlockScanFacts.NumberedItem | src/App.jsx:355-361 | digits, a dot, a space and text make a numbered item with that text |
| BlockScanFacts.StepExtends | src/App.jsx:287-403 | each iteration only appends to `elements` |
| BlockScanFacts.PrefixBlocks | src/App.jsx:287-406 | the elements pushed after any number of lines are a prefix of the final elements |
| BlockScanFacts.FlushWellFormed | src/App.jsx:215-235 | `flushList` keeps the loop invariant and leaves no pending items and no list type |
| BlockScanFacts.StepWellFormed | src/App.jsx:287-403 | every iteration keeps the invariant: pending items exist exactly when a list type is set, none are pending inside a code block, and every pushed block is well formed |
| BlockScanFacts.BlocksAreGood | src/App.jsx:206-406 | every block has a level of 1 to 6, non-empty texts and non-empty lists |
| BlockScanFacts.NoCodeBlocks | src/App.jsx:300-317 | no code block is ever pushed |
| BlockScanFacts.CodeStaysOpen | src/App.jsx:291-324 | once a code block is open it stays open, and nothing more is pushed or queued |
| BlockScanFacts.StepCode | src/App.jsx:291-324 | after one iteration a code block is open exactly when it already was, or the line starts with three backticks |
| BlockScanFacts.CodeOpenIff | src/App.jsx:287-403 | a code block is open after the loop exactly when some line starts with three backticks |
| BlockScanFacts.FenceSwallowsRest | src/App.jsx:291-406 | a line starting with three backticks drops itself and every later line: the blocks are those of the lines before it |
| BlockScanFacts.EmptyLineIsBlank | src/App.jsx:388 | the empty line is blank |
| BlockScanFacts.TrailingBlankLine | src/App.jsx:388-393 | a trailing empty line adds one spacer, unless an open code block swallows it |
| BlockScanFacts.SingleEmptyLine | src/App.jsx:388-393 | a single empty line gives one spacer |
| BlockScanFacts.StepItem | src/App.jsx:343-364 | outside a code block an item line is queued, after a flush only when the list type changes |
| BlockScanFacts.QueueStep | src/App.jsx:343-364 | with no list, or a list of the same kind, pending, an item is queued with no flush |
| BlockScanFacts.ItemRunQueued | src/App.jsx:343-364 | consecutive items of one kind are queued in order as one pending list, and nothing is pushed |
| BlockScanFacts.ItemRunIsOneList | src/App.jsx:215-235 | a run of items of one kind becomes exactly one list of their texts in order |
| BlockScanFacts.KindChangeSplitsList | src/App.jsx:345-360 | bullets followed by numbered items give the two lists one after the other |
| BlockScanFacts.NumbersAfter | src/App.jsx:355-364 | numbered items after queued bullets push the bullets, then queue what they would queue from the start |
| Renderer.BuildRaw | src/App.jsx:217-231 | an element built from the parses of a block's own texts gives that block back |
| Renderer.Resolve | src/App.jsx:217-401 | building one element, each text through `parseInline` in order; `ResolveRoundTrip` and `ResolveHangs` state its properties |
| Renderer.Render | src/App.jsx:206-407 | what `parseMarkdown` returns, or Hangs; `ParseMarkdown` is proved to return it, and `RenderIsBlocks` and `RenderHangs` state its properties |
| Renderer.ResolveRoundTrip | src/App.jsx:217-401 | every element that is built gives back the raw block it came from |
| Renderer.ResolveHangs | src/App.jsx:221-399 | building an element hangs exactly when `parseInline` hangs on one of its texts |
| Renderer.ParseAll | src/App.jsx:220-228 | `listItems.map(parseInline)` gives the parses in order, or hangs at the first hang |
| Renderer.ResolveBlock | src/App.jsx:217-401 | one element as its branch builds it |
| Renderer.MarkdownScanner.constructor | src/App.jsx:207-213 | the fresh locals hold the initial loop state |
| Renderer.MarkdownScanner.Push | src/App.jsx:217-231 | `elements.push` appends the element built from a block, and leaves the list and code variables alone |
| Renderer.MarkdownScanner.FlushList | src/App.jsx:215-235 | `flushList` updates the fields as the spec function `Flush` does |
| Renderer.MarkdownScanner.FlushAndPush | src/App.jsx:326-402 | flushing then pushing one block updates the fields as `Emit` does |
| Renderer.MarkdownScanner.QueueItem | src/App.jsx:343-364 | queuing an item updates the fields as `AddItem` does |
| Renderer.MarkdownScanner.SetListType | src/App.jsx:345-360 | `listType = 'ul'` or `'ol'` sets the list type of the state the fields hold, and nothing else |
| Renderer.MarkdownScanner.PushItem | src/App.jsx:349-361 | `listItems.push(match[1])` appends the item to the pending items of the state the fields hold, and nothing else |
| Renderer.MarkdownScanner.OpenCode | src/App.jsx:291-297 | a fence line flushes, then opens an empty code block with the captured language |
| Renderer.MarkdownScanner.AddCodeLine | src/App.jsx:320-324 | a line inside a code block is appended to it |
| Renderer.MarkdownScanner.ScanOutside | src/App.jsx:326-402 | the branches after the code-block tests update the fields as `Outside` does |
| Renderer.MarkdownScanner.ScanLine | src/App.jsx:288-403 | one iteration updates the fields as `StepKind` does; the closing branch is unreachable |
| Renderer.ParseMarkdown | src/App.jsx:206-407 | the loop returns exactly what `Render` specifies: the elements built from `Blocks` of the lines, or Hangs |
| RendererFacts.ResolvePlain | src/App.jsx:367-393 | rules and spacers are built without parsing |
| RendererFacts.RenderIsBlocks | src/App.jsx:206-407 | each rendered element is built from the raw block at the same position, and none is a code block |
| RendererFacts.RenderHangs | src/App.jsx:206-407 | `parseMarkdown` hangs exactly when `parseInline` hangs on a text of one of the blocks |
| RendererFacts.StarMessageHangs | src/App.jsx:242-402 | `parseMarkdown("a * b")` never returns |
| RendererFacts.RenderEmpty | src/App.jsx:208-406 | the empty message renders as one spacer |
| RendererFacts.RenderTrailingNewline | src/App.jsx:208-406 | a trailing newline adds one spacer, unless a fence line has already swallowed the rest |
| RendererFacts.RenderLines | src/App.jsx:206-407 | text made of lines without newlines renders as the blocks of those very lines |
| RendererFacts.RenderFenceSwallows | src/App.jsx:291-406 | a fence line and everything after it render as nothing |
| RendererFacts.FenceFirstRendersNothing | src/App.jsx:291-406 | a message whose first line starts with three backticks renders as no element |
| RendererFacts.FencedMessageEmpty | src/App.jsx:291-317 | the fenced block "```js", "const x=1;", "```" renders as no element |
| RendererFacts.FencedCodeVanishes | src/App.jsx:291-317 | a fenced block, closing fence included, adds nothing to the rendering of the lines before it |
| Corrected.FixedAgreesWithoutFences | src/App.jsx:287-403 | without fence lines the corrected loop does what the loop as written does |
| Corrected.StepFixed | src/App.jsx:288-324 | one iteration with the open code block looked at before the fence test; `FencedBlockFixed` and `CodeBodyQueued` state its effect |
| Corrected.FoldFixedFrom | src/App.jsx:287-403 | the corrected loop from a given state |
| Corrected.BlocksFixed | src/App.jsx:206-406 | the corrected loop, then the final `flushList`; `FixedAgreesWithoutFences` and `FencedBlockFixed` state what it returns |
| Corrected.CodeBodyQueued | src/App.jsx:320-324 | inside a code block, every line other than the closing fence joins the block |
| Corrected.FencedBlockFixed | src/App.jsx:291-317 | with the closing test first, a fenced block becomes one code block holding its lines and language |
| Corrected.BodyFixed | src/App.jsx:276-281 | with the stall kept as text, every iteration consumes exactly the source of one span |
| Corrected.ScanFixed | src/App.jsx:242-282 | the corrected scanner always finishes, and its spans spell out the text |
| Corrected.ScanFixedAgrees | src/App.jsx:242-282 | wherever the loop as written finishes, the corrected one gives the same spans |
| Corrected.StallKeptAsText | src/App.jsx:276-281 | a special character that starts no pattern becomes a one-character plain span, and the scan goes on after it |
| Corrected.InlineFixed | src/App.jsx:284 | the corrected `parseInline` returns the text itself exactly when it is empty, and otherwise parts that spell out the text |
| Corrected.InlineFixedAgrees | src/App.jsx:237-285 | the corrected `parseInline` agrees with the original wherever the original returns |
| Chat.FirstTruthy | src/App.jsx:517 | `a.k0 \|\| a.k1 \|\| ...` is None exactly when no key is truthy, and otherwise the value of the first truthy key |
| Chat.ArrayReply | src/App.jsx:515-518 | a non-empty array answers with the first truthy of `output`, `response`, `message`, `text` of its first element, else its stringification |
| Chat.ObjectReply | src/App.jsx:519-523 | an object answers with the first truthy of `response`, `message`, `output`, `text`, else its stringification |
| Chat.OrdersDiffer | src/App.jsx:515-523 | with both `output` and `response` set, an array answers `output` and an object answers `response` |
| Chat.EmptyArrayStringified | src/App.jsx:515-521 | an empty array falls through to the object branch and is stringified |
| Chat.NullThrows | src/App.jsx:515-521 | reading a field of `null`, or of a `null` first element, throws |
| Chat.PlainTextReply | src/App.jsx:510-527 | any content type not containing `application/json` answers with the body text |
| Chat.PickText | src/App.jsx:517-521 | the first truthy field among the keys, else the stringification, or None where the field access throws; `FirstTruthy`, `ArrayReply` and `ObjectReply` state its properties |
| Chat.JsonReply | src/App.jsx:512-523 | the reply of a JSON body: a non-empty array answers with its first element, anything else with itself; `ArrayReply`, `ObjectReply`, `EmptyArrayStringified` and `NullThrows` state its cases |
| Chat.ResponseText | src/App.jsx:506-527 | the reply text of a successful response; `PlainTextReply` and `ReceivedReplyShown` state its properties |
| Chat.Receive | src/App.jsx:501-527 | how the request ends once the response is in: not ok is an `API Error`, else the reply text or the exception it throws; `ReceivedReplyShown` states its effect |
| Chat.ReplyMessage | src/App.jsx:529-547 | the added message is from the assistant, and it is an error message exactly when the request failed; its content is the reply, or the error text built from the failure's message |
| Chat.ReceivedReplyShown | src/App.jsx:501-547 | after a response, the last message of the active bot is the reply text when the response is ok and readable, and the `API Error` message with its status when it is not ok |
| Chat.BeginSend | src/App.jsx:445-464 | the user's message shown at once, the input cleared and loading set; `BeginShowsUserMessage` states its effect |
| Chat.FinishSend | src/App.jsx:529-556 | the bot's list becomes the list sent plus one reply, whatever it holds by then; `ClearDuringRequestUndone` shows the consequence |
| Chat.SendMessage | src/App.jsx:444-557 | `sendMessage` run to its end; `SendIgnored`, `SendAppends` and `SendKeepsOtherBots` state its effect |
| Chat.ClearHistory | src/App.jsx:613-617 | `clearHistory` given the answer to the dialog; `ClearOnlyActive` states its effect |
| Chat.SendIgnored | src/App.jsx:445 | blank input, or a request in flight, leaves the state unchanged |
| Chat.SendAppends | src/App.jsx:447-556 | the active bot's list grows by the untrimmed input as a user message, then by exactly one reply; the input is cleared and loading ends |
| Chat.BeginShowsUserMessage | src/App.jsx:453-464 | the user's message is on display while the request is in flight |
| Chat.SendKeepsOtherBots | src/App.jsx:457-553 | no other bot's list changes, and no bot gains or loses a list |
| Chat.ClearOnlyActive | src/App.jsx:613-617 | a confirmed clear empties the active list alone; an unconfirmed one changes nothing |
| Chat.ClearDuringRequestUndone | src/App.jsx:536-553 | a list cleared while its request is in flight gets back everything sent once the reply arrives |
| Webhook.Upper | bots/base.py:33 | `str.upper()` keeps the length and upper-cases each character |
| Webhook.CandidateKeys | bots/base.py:30-34 | the bot's own key, only when it is set and not empty, then `WEBHOOK_URL_<ID>`, then `WEBHOOK_URL` |
| Webhook.ValueFor | bots/base.py:37-46 | for one key, a value is found exactly when the secret or the environment value is truthy, and it is never empty |
| Webhook.Lookup | bots/base.py:36-48 | None exactly when no key has a truthy value; otherwise the value of the first key that has one |
| Webhook.ResolveWebhook | bots/base.py:15-48 | the loop returns exactly what `Lookup` specifies for the candidate keys |
| Webhook.ToConfig | bots/base.py:50-57 | the display fields are copied, and the webhook is the lookup over the candidate keys: None exactly when no key has a truthy value, otherwise the value of the first key that has one |
| Webhook.FirstKeyWins | bots/base.py:36-46 | the first key with a truthy value decides, whatever later keys hold |
| Webhook.SecretsBeforeEnv | bots/base.py:37-43 | for one key, a truthy secret is returned and the environment is not read |
| Webhook.EnvFallback | bots/base.py:37-46 | for one key, a missing or empty secret falls back to a truthy environment value |
| Webhook.KeyOrderBeatsSourceOrder | bots/base.py:36-46 | an earlier key found only in the environment beats a later key found in the secrets |
| Webhook.FalsySkipped | bots/base.py:40-46 | an empty secret and an empty environment value fall through to the next key |
| Webhook.NoStreamlit | bots/base.py:23-26 | without Streamlit the lookup is that of empty secrets |
| Webhook.LookupSameValues | bots/base.py:36-46 | two secret stores that agree on every key give the same lookup |
| Webhook.SecretsKeyFirst | bots/base.py:31-32 | a truthy secret under the bot's own key wins over every other key |
| Webhook.SharedFallback | bots/base.py:34-48 | with nothing under the bot's own keys, the shared `WEBHOOK_URL` decides |
| Webhook.LookupDocumented | bots/base.py:16-22 | the order the docstring lists: every key in the secrets first, the environment only as a fallback |
| Webhook.SecretsFirstDocumented | bots/base.py:16-22 | in the documented order the first key with a truthy secret wins over every environment value |
| Webhook.DocumentedAgreesWithoutSecrets | bots/base.py:16-46 | without any truthy secret the documented order and the code give the same value |
| Webhook.DocumentedOrderDiffers | bots/base.py:16-46 | the code returns an earlier key's environment value where the documented order returns a later key's secret |

## Left out

- Authentication, the Supabase session and JWT, the request headers and payload, and `fetch` itself (src/App.jsx:466-500): they are I/O. `Chat.Receive` takes the response's status, content type and body as parameters; an exception before the response arrives is a `Delivery` that failed with its message.
- Timestamps and `metadata` of messages (src/App.jsx:450, 518, 522, 532): they are clock readings and data that nothing here reads.
- `localStorage` persistence, the theme, auto-scroll, `exportHistory` and `handleAddToDoku`: they are browser I/O with no logic over the history beyond what is modelled.
- The JSX of each element: class names, `darkMode`, React keys, heading sizes and the `join('\n')` of code lines. The model keeps the kind and the content of each element.
- React state updates are applied to the state at the time they run. The only interleaving modelled is a clear during a request (`ClearDuringRequestUndone`).
- `JSON.stringify` and `response.json()` are parameters. Field values other than strings are known only by their truthiness.
- How a reply whose content is not a string (a number or an object picked from the JSON) is displayed: the model keeps such a value as it is in the message.
- Character classes are ASCII: `\s`, `trim()`, `\w`, line terminators for `.` (`\n`, `\r`) and `str.upper()`. Unicode whitespace and case mapping are left out.
- Inline.ParseInline: returns Hangs at the point where the source loops forever, because a non-terminating loop cannot be written here.
- Renderer.ParseMarkdown: returns Hangs when a `parseInline` call it makes never returns. It follows the source's loop line by line, but it does not model the order in which React evaluates the JSX children.
- Webhook.ResolveWebhook: secret values are strings. The `str(value)` conversion of other secret types is not modelled.
- Webhook.NoStreamlit: any exception other than a missing key from `st.secrets[key]` is treated as a missing key. The source treats both alike.
- `render_chat` and the other Streamlit front end (bomber.py), the bot registry and the individual bots, `DocumentationBotMessage.jsx`, `ChatWindow.jsx` and the Vite configuration: these are not part of this model.

## Findings

| source | as written | input that shows it | evidently intended | confidence | as-written member | corrected member |
|---|---|---|---|---|---|---|
| src/App.jsx:291-317 | the fence-open test (a line starting with three backticks) runs first and also matches the closing fence, so the closing branch is never taken; the open code block is never pushed, not even at the end, and the fence line and every later line render as nothing | the three lines: three backticks followed by "js", then "const x=1;", then three backticks alone; they render as no element | a line of three backticks alone inside an open block closes it and pushes one code block with its lines and language | not executed | RendererFacts.FencedMessageEmpty | Corrected.FencedBlockFixed |
| src/App.jsx:242-282 | a `*`, backtick or `[` that starts no pattern gives an empty plain chunk, `remaining` never shrinks, and the loop never ends | "a * b", and "[x]" | the character is kept as text and the scan goes on after it | not executed | RendererFacts.StarMessageHangs | Corrected.ScanFixed |
| bots/base.py:16-46 | the docstring lists every secret before any environment value, but the loop reads the secret and then the environment key by key | `WEBHOOK_URL_<ID>` set only in the environment and `WEBHOOK_URL` set in the secrets: the code returns the environment value, the docstring's order the shared secret | the order the docstring lists, unless the docstring is the part that is out of date | not executed; low, since either half may be the intended one | Webhook.DocumentedOrderDiffers | Webhook.SecretsFirstDocumented |
