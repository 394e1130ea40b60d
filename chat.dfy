/**
 * The chat state of `AICockpit` (src/App.jsx): which text of a webhook response becomes the
 * assistant's reply, and how `sendMessage` and `clearHistory` update the per-bot history map.
 */
module Chat {
  import opened Text
  import opened Outcomes

  // ----- The reply text -----

  /** A field value of the parsed response: a string, or any other JSON value, known here only by its truthiness. */
  datatype Value = Str(s: string) | NonString(truthy: bool)

  /** JavaScript truthiness: a string is truthy when it is not empty. */
  predicate Truthy(v: Value) {
    match v
    case Str(s) => |s| > 0
    case NonString(t) => t
  }

  /** A parsed JSON body. Only objects have fields; `null` has no properties at all. */
  datatype Json = JArray(elems: seq<Json>) | JObject(fields: map<string, Value>) | JNull | JScalar(v: Value)

  /** Property access on a JSON value: None where it throws (on `null`), and no fields on arrays and scalars. */
  function FieldsOf(j: Json): Option<map<string, Value>> {
    match j
    case JObject(fields) => Some(fields)
    case JNull => None
    case _ => Some(map[])
  }

  predicate TruthyAt(fields: map<string, Value>, key: string) {
    key in fields && Truthy(fields[key])
  }

  /** `a.k0 || a.k1 || ...`: the first truthy property, in key order; None when none is truthy. */
  function FirstTruthy(fields: map<string, Value>, keys: seq<string>): (r: Option<Value>)
    ensures r.None? <==> forall i :: 0 <= i < |keys| ==> !TruthyAt(fields, keys[i])
    ensures r.Some? ==> exists i :: 0 <= i < |keys| && TruthyAt(fields, keys[i]) && r.value == fields[keys[i]] &&
                                 (forall j :: 0 <= j < i ==> !TruthyAt(fields, keys[j]))
    decreases |keys|
  {
    if keys == [] then None
    else if TruthyAt(fields, keys[0]) then Some(fields[keys[0]])
    else
      var r := FirstTruthy(fields, keys[1..]);
      assert forall i :: 1 <= i < |keys| ==> keys[i] == keys[1..][i - 1];
      if r.Some? then
        var i :| 0 <= i < |keys[1..]| && TruthyAt(fields, keys[1..][i]) && r.value == fields[keys[1..][i]] &&
                 (forall j :: 0 <= j < i ==> !TruthyAt(fields, keys[1..][j]));
        assert TruthyAt(fields, keys[i + 1]) && forall j :: 0 <= j < i + 1 ==> !TruthyAt(fields, keys[j]);
        r
      else r
  }

  /** The field order for the first element of an array response. */
  const ArrayOrder: seq<string> := ["output", "response", "message", "text"]

  /** The field order for any other response. */
  const ObjectOrder: seq<string> := ["response", "message", "output", "text"]

  /** The first truthy field of `j` in `keys`, else `JSON.stringify(j)`; None where the property access throws. */
  function PickText(j: Json, keys: seq<string>, stringify: Json -> string): Option<Value> {
    match FieldsOf(j)
    case None => None
    case Some(fields) =>
      match FirstTruthy(fields, keys)
      case Some(v) => Some(v)
      case None => Some(Str(stringify(j)))
  }

  /** The reply of a JSON body: a non-empty array answers with its first element, anything else with itself. */
  function JsonReply(data: Json, stringify: Json -> string): Option<Value> {
    if data.JArray? && |data.elems| > 0 then PickText(data.elems[0], ArrayOrder, stringify)
    else PickText(data, ObjectOrder, stringify)
  }

  predicate OccursAt(s: string, part: string, i: int) {
    0 <= i <= |s| - |part| && s[i..i + |part|] == part
  }

  /** `s.includes(part)` */
  predicate Contains(s: string, part: string) {
    exists i :: 0 <= i <= |s| - |part| && OccursAt(s, part, i)
  }

  /**
   * The content of the assistant's reply for a successful response: a JSON content type parses the body
   * (`parse` is `response.json()`, None where it throws), any other content type keeps the body text.
   * None stands for an exception, which `sendMessage` turns into an error message.
   */
  function ResponseText(contentType: Option<string>, body: string, parse: string -> Option<Json>,
                        stringify: Json -> string): Option<Value> {
    if contentType.Some? && Contains(contentType.value, "application/json") then
      match parse(body)
      case None => None
      case Some(data) => JsonReply(data, stringify)
    else Some(Str(body))
  }

  /** A non-empty array answers with the first truthy of output, response, message, text of its first element. */
  lemma ArrayReply(data: Json, stringify: Json -> string)
    requires data.JArray? && |data.elems| > 0 && data.elems[0].JObject?
    ensures var fields := data.elems[0].fields;
      JsonReply(data, stringify) ==
        if TruthyAt(fields, "output") then Some(fields["output"])
        else if TruthyAt(fields, "response") then Some(fields["response"])
        else if TruthyAt(fields, "message") then Some(fields["message"])
        else if TruthyAt(fields, "text") then Some(fields["text"])
        else Some(Str(stringify(data.elems[0])))
  {
    var fields := data.elems[0].fields;
    FirstTruthyUnrolled(fields, ArrayOrder);
  }

  /** An object answers with the first truthy of response, message, output, text. */
  lemma ObjectReply(data: Json, stringify: Json -> string)
    requires data.JObject?
    ensures JsonReply(data, stringify) ==
      if TruthyAt(data.fields, "response") then Some(data.fields["response"])
      else if TruthyAt(data.fields, "message") then Some(data.fields["message"])
      else if TruthyAt(data.fields, "output") then Some(data.fields["output"])
      else if TruthyAt(data.fields, "text") then Some(data.fields["text"])
      else Some(Str(stringify(data)))
  {
    FirstTruthyUnrolled(data.fields, ObjectOrder);
  }

  /** The first truthy of four keys, spelled out. */
  lemma FirstTruthyUnrolled(fields: map<string, Value>, keys: seq<string>)
    requires |keys| == 4
    ensures FirstTruthy(fields, keys) ==
      if TruthyAt(fields, keys[0]) then Some(fields[keys[0]])
      else if TruthyAt(fields, keys[1]) then Some(fields[keys[1]])
      else if TruthyAt(fields, keys[2]) then Some(fields[keys[2]])
      else if TruthyAt(fields, keys[3]) then Some(fields[keys[3]])
      else None
  {
    assert keys[1..][0] == keys[1] && keys[1..][1..][0] == keys[2] && keys[1..][1..][1..][0] == keys[3];
    assert keys[1..][1..][1..][1..] == [];
  }

  /** The two orders differ: with both `output` and `response` set, an array answers `output` and an object `response`. */
  lemma OrdersDiffer(fields: map<string, Value>, stringify: Json -> string)
    requires TruthyAt(fields, "output") && TruthyAt(fields, "response")
    ensures JsonReply(JArray([JObject(fields)]), stringify) == Some(fields["output"])
    ensures JsonReply(JObject(fields), stringify) == Some(fields["response"])
  {
    ArrayReply(JArray([JObject(fields)]), stringify);
    ObjectReply(JObject(fields), stringify);
  }

  /** An empty array is answered as an object would be: it has none of the fields, so it is stringified. */
  lemma EmptyArrayStringified(stringify: Json -> string)
    ensures JsonReply(JArray([]), stringify) == Some(Str(stringify(JArray([]))))
  {
    assert FirstTruthy(map[], ObjectOrder).None?;
  }

  /** A `null` body, or a `null` first element, has no properties: reading one throws. */
  lemma NullThrows(stringify: Json -> string)
    ensures JsonReply(JNull, stringify).None?
    ensures JsonReply(JArray([JNull]), stringify).None?
  {
  }

  /** Any other content type answers with the body text as it is. */
  lemma PlainTextReply(contentType: Option<string>, body: string, parse: string -> Option<Json>, stringify: Json -> string)
    requires contentType.None? || !Contains(contentType.value, "application/json")
    ensures ResponseText(contentType, body, parse, stringify) == Some(Str(body))
  {
  }

  // ----- The history -----

  datatype Role = User | Assistant

  /** A chat message; timestamps and metadata are not modelled. */
  datatype Message = Message(role: Role, content: Value, isError: bool)

  /** How a request ended: with the reply content, or with an exception and its message. */
  datatype Delivery = Delivered(content: Value) | Failed(reason: string)

  /** The component state `sendMessage` and `clearHistory` read and write. */
  datatype ChatState = ChatState(history: map<string, seq<Message>>, active: string, input: string, loading: bool)

  /** `messages[bot] || []` */
  function MessagesOf(history: map<string, seq<Message>>, bot: string): seq<Message> {
    if bot in history then history[bot] else []
  }

  function ErrorText(reason: string): string {
    "❌ Fehler: " + reason + ". Bitte überprüfe die Webhook-URL und API-Konfiguration."
  }

  /** The one message a request adds after the user's: the reply, or the error message. */
  function ReplyMessage(d: Delivery): (m: Message)
    ensures m.role == Assistant && (m.isError <==> d.Failed?)
    ensures d.Delivered? ==> m.content == d.content
    ensures d.Failed? ==> m.content == Str(ErrorText(d.reason))
  {
    match d
    case Delivered(content) => Message(Assistant, content, false)
    case Failed(reason) => Message(Assistant, Str(ErrorText(reason)), true)
  }

  /**
   * How the request ends once `fetch` has answered: a response that is not ok throws
   * `API Error: <status> <statusText>`; otherwise the reply text is delivered, unless reading it throws
   * (with message `thrown`). Exceptions before the answer, such as a missing session, are a
   * `Failed` delivery built by the caller.
   */
  function Receive(ok: bool, status: string, statusText: string, contentType: Option<string>, body: string,
                   parse: string -> Option<Json>, stringify: Json -> string, thrown: string): Delivery {
    if !ok then Failed("API Error: " + status + " " + statusText)
    else
      match ResponseText(contentType, body, parse, stringify)
      case Some(v) => Delivered(v)
      case None => Failed(thrown)
  }

  /** The guard of `sendMessage`: nothing happens for blank input or while a request is in flight. */
  predicate Ignored(c: ChatState) { IsBlank(c.input) || c.loading }

  /** The first half of `sendMessage`: the user's message is shown at once, the input cleared, loading set. */
  function BeginSend(c: ChatState): ChatState
    requires !Ignored(c)
  {
    var toSend := MessagesOf(c.history, c.active) + [Message(User, Str(c.input), false)];
    ChatState(c.history[c.active := toSend], c.active, "", true)
  }

  /**
   * The second half, when the request ends: the list of `bot` becomes the list sent plus the one reply,
   * whatever it holds by then, and loading ends.
   */
  function FinishSend(c: ChatState, bot: string, toSend: seq<Message>, d: Delivery): ChatState {
    c.(history := c.history[bot := toSend + [ReplyMessage(d)]], loading := false)
  }

  /** `sendMessage` run to its end with no other update in between. */
  function SendMessage(c: ChatState, d: Delivery): ChatState {
    if Ignored(c) then c
    else
      var toSend := MessagesOf(c.history, c.active) + [Message(User, Str(c.input), false)];
      FinishSend(BeginSend(c), c.active, toSend, d)
  }

  /** `clearHistory`, given the answer to the confirmation dialog. */
  function ClearHistory(c: ChatState, confirmed: bool): ChatState {
    if confirmed then c.(history := c.history[c.active := []]) else c
  }

  /** Blank input or a request in flight leave the state as it is. */
  lemma SendIgnored(c: ChatState, d: Delivery)
    requires Ignored(c)
    ensures SendMessage(c, d) == c
  {
  }

  /** Otherwise the active list grows by the untrimmed input as a user message, then by exactly one assistant message. */
  lemma SendAppends(c: ChatState, d: Delivery)
    requires !Ignored(c)
    ensures var h := SendMessage(c, d).history;
      c.active in h && |h[c.active]| == |MessagesOf(c.history, c.active)| + 2 &&
      h[c.active][..|MessagesOf(c.history, c.active)|] == MessagesOf(c.history, c.active) &&
      h[c.active][|h[c.active]| - 2] == Message(User, Str(c.input), false) &&
      h[c.active][|h[c.active]| - 1] == ReplyMessage(d)
    ensures SendMessage(c, d).input == "" && !SendMessage(c, d).loading && SendMessage(c, d).active == c.active
  {
    var before := MessagesOf(c.history, c.active);
    var user := Message(User, Str(c.input), false);
    assert (before + [user] + [ReplyMessage(d)])[..|before|] == before;
  }

  /** What the user sees last after a request: the reply text of an ok response, or the error text of the status line. */
  lemma ReceivedReplyShown(c: ChatState, ok: bool, status: string, statusText: string, contentType: Option<string>,
                           body: string, parse: string -> Option<Json>, stringify: Json -> string, thrown: string)
    requires !Ignored(c)
    ensures var d := Receive(ok, status, statusText, contentType, body, parse, stringify, thrown);
      var h := SendMessage(c, d).history[c.active];
      var last := h[|h| - 1];
      last.role == Assistant &&
      (ok && ResponseText(contentType, body, parse, stringify).Some? ==>
        last.content == ResponseText(contentType, body, parse, stringify).value && !last.isError) &&
      (!ok ==> last.content == Str(ErrorText("API Error: " + status + " " + statusText)) && last.isError)
  {
    SendAppends(c, Receive(ok, status, statusText, contentType, body, parse, stringify, thrown));
  }

  /** The user's message is on display while the request is in flight. */
  lemma BeginShowsUserMessage(c: ChatState)
    requires !Ignored(c)
    ensures MessagesOf(BeginSend(c).history, c.active) ==
      MessagesOf(c.history, c.active) + [Message(User, Str(c.input), false)]
    ensures BeginSend(c).loading && BeginSend(c).input == ""
  {
  }

  /** No other bot's list changes, nor which bots have one. */
  lemma SendKeepsOtherBots(c: ChatState, d: Delivery, bot: string)
    requires bot != c.active
    ensures bot in SendMessage(c, d).history <==> bot in c.history
    ensures bot in c.history ==> SendMessage(c, d).history[bot] == c.history[bot]
  {
  }

  /** Clearing empties the active list alone, and only when confirmed. */
  lemma ClearOnlyActive(c: ChatState, confirmed: bool, bot: string)
    ensures confirmed ==> MessagesOf(ClearHistory(c, true).history, c.active) == []
    ensures !confirmed ==> ClearHistory(c, confirmed) == c
    ensures bot != c.active ==> MessagesOf(ClearHistory(c, confirmed).history, bot) == MessagesOf(c.history, bot)
    ensures ClearHistory(c, confirmed).active == c.active && ClearHistory(c, confirmed).input == c.input
  {
  }

  /** A list cleared while its request is in flight gets back everything sent once the reply arrives. */
  lemma ClearDuringRequestUndone(c: ChatState, d: Delivery)
    requires !Ignored(c)
    ensures var toSend := MessagesOf(c.history, c.active) + [Message(User, Str(c.input), false)];
      MessagesOf(FinishSend(ClearHistory(BeginSend(c), true), c.active, toSend, d).history, c.active) ==
        MessagesOf(c.history, c.active) + [Message(User, Str(c.input), false), ReplyMessage(d)]
  {
    var toSend := MessagesOf(c.history, c.active) + [Message(User, Str(c.input), false)];
    assert toSend + [ReplyMessage(d)] ==
      MessagesOf(c.history, c.active) + [Message(User, Str(c.input), false), ReplyMessage(d)];
  }
}
