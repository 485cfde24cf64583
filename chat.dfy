/**
 * The llama.cpp client of src/main.rs: `ask_llama` stores the user turn,
 * assembles [system prompt?] + recent history, appends the word-cap reminder
 * to the last message when it is a user message, sends the request and
 * stores the first choice as the assistant's reply; `query_llm_oneshot`
 * sends exactly [system, user] and stores nothing. The HTTP exchange is an
 * input: its outcome carries the messages of the response's `choices`.
 */
module Chat {
  import opened Wrappers
  import opened Http
  import opened Text
  import opened Db

  /** `HISTORY_LIMIT`. */
  const HistoryLimit: nat := 10
  const DefaultCap: nat := 10
  const NotConfigured: string := "LLAMA_API_URL not configured"

  /** `ChatMessage`: one role-tagged entry of a chat-completion request or choice. */
  datatype ChatMessage = ChatMessage(role: string, content: string)

  /** The answer of the chat-completion endpoint: the messages of its `choices`. */
  type ChatOutcome = HttpOutcome<seq<ChatMessage>>

  /**
   * The word cap in force: `response_cap` parsed as a u32, or 10 when it is
   * missing or does not parse.
   */
  function ResponseCap(config: map<string, string>): (cap: nat)
    ensures cap <= U32Max
    ensures ResponseCapKey !in config ==> cap == DefaultCap
    ensures ResponseCapKey in config && ParseU32(config[ResponseCapKey]).None? ==> cap == DefaultCap
    ensures ResponseCapKey in config && ParseU32(config[ResponseCapKey]).Some? ==> cap == ParseU32(config[ResponseCapKey]).value
  {
    match Lookup(config, ResponseCapKey)
    case Some(v) => ParseU32(v).GetOr(DefaultCap)
    case None => DefaultCap
  }

  /** The reminder appended to the last user message. */
  function CapSuffix(cap: nat): string {
    "\n(Reply in " + NatToString(cap) + " words or less. Stay in character.)"
  }

  function SystemPart(systemPrompt: string): (msgs: seq<ChatMessage>)
    ensures systemPrompt == "" <==> msgs == []
    ensures systemPrompt != "" ==> msgs == [ChatMessage("system", systemPrompt)]
  {
    if systemPrompt == "" then [] else [ChatMessage("system", systemPrompt)]
  }

  function HistoryPart(history: seq<StoredMessage>): (msgs: seq<ChatMessage>)
    ensures |msgs| == |history|
  {
    seq(|history|, i requires 0 <= i < |history| => ChatMessage(history[i].role, history[i].content))
  }

  /** The reminder, added to the last message only, and only when its role is "user". */
  function WithReminder(msgs: seq<ChatMessage>, cap: nat): (r: seq<ChatMessage>)
    ensures |r| == |msgs|
    ensures forall i :: 0 <= i < |msgs| - 1 ==> r[i] == msgs[i]
    ensures msgs != [] ==>
      r[|r| - 1] == (if msgs[|msgs| - 1].role == "user"
                     then ChatMessage("user", msgs[|msgs| - 1].content + CapSuffix(cap))
                     else msgs[|msgs| - 1])
  {
    if msgs != [] && msgs[|msgs| - 1].role == "user" then
      msgs[|msgs| - 1 := ChatMessage("user", msgs[|msgs| - 1].content + CapSuffix(cap))]
    else msgs
  }

  /** The request messages `ask_llama` builds from the system prompt, the history and the cap. */
  function Assembled(systemPrompt: string, history: seq<StoredMessage>, cap: nat): (r: seq<ChatMessage>)
    ensures |r| == |history| + (if systemPrompt == "" then 0 else 1)
  {
    WithReminder(SystemPart(systemPrompt) + HistoryPart(history), cap)
  }

  /**
   * The shape of an assembled prompt: a system message first exactly when the
   * system prompt is non-empty, then the history in stored order; every
   * message keeps its role and content except that the last one, when it is
   * a user message, also carries the reminder.
   */
  lemma AssembledShape(systemPrompt: string, history: seq<StoredMessage>, cap: nat)
    ensures var r := Assembled(systemPrompt, history, cap);
      var off := if systemPrompt == "" then 0 else 1;
      && |r| == |history| + off
      && (systemPrompt != "" ==> r[0] == ChatMessage("system", systemPrompt))
      && (forall i :: 0 <= i < |history| - 1 ==>
            r[off + i] == ChatMessage(history[i].role, history[i].content))
      && (history != [] ==>
            var last := history[|history| - 1];
            r[|r| - 1] == ChatMessage(last.role, if last.role == "user" then last.content + CapSuffix(cap) else last.content))
  {
    var base := SystemPart(systemPrompt) + HistoryPart(history);
    var off := if systemPrompt == "" then 0 else 1;
    RequestBase(systemPrompt, history);
    var r := WithReminder(base, cap);
    assert r == Assembled(systemPrompt, history, cap);
    assert |r| == |history| + off;
    forall i | 0 <= i < |history| - 1
      ensures r[off + i] == ChatMessage(history[i].role, history[i].content)
    {
      assert r[off + i] == base[off + i];
    }
    if history != [] {
      assert r[|r| - 1] == WithReminder(base, cap)[|base| - 1];
    }
  }

  /** Before the reminder: the optional system message, then the history in stored order. */
  lemma RequestBase(systemPrompt: string, history: seq<StoredMessage>)
    ensures var base := SystemPart(systemPrompt) + HistoryPart(history);
      var off := if systemPrompt == "" then 0 else 1;
      && |base| == |history| + off
      && (systemPrompt != "" ==> base[0] == ChatMessage("system", systemPrompt))
      && forall i :: 0 <= i < |history| ==> base[off + i] == ChatMessage(history[i].role, history[i].content)
  {
    var system, turns := SystemPart(systemPrompt), HistoryPart(history);
    var off := if systemPrompt == "" then 0 else 1;
    assert |system| == off;
    forall i | 0 <= i < |history|
      ensures (system + turns)[off + i] == ChatMessage(history[i].role, history[i].content)
    {
      assert (system + turns)[off + i] == turns[i];
    }
  }

  /** With no user message last, nothing is appended anywhere. */
  lemma NoReminderUnlessUserLast(systemPrompt: string, history: seq<StoredMessage>, cap: nat)
    requires history == [] || history[|history| - 1].role != "user"
    ensures Assembled(systemPrompt, history, cap) == SystemPart(systemPrompt) + HistoryPart(history)
  {
  }

  /**
   * In `ask_llama` the history is read after the user turn is stored, so the
   * assembled prompt always ends with that turn plus the reminder, while the
   * stored row keeps the text as the user wrote it.
   */
  lemma {:induction false} UserTurnEndsPrompt(rows: seq<Row>, contextKey: string, userMessage: string, id: nat, systemPrompt: string, cap: nat)
    ensures var history := Recent(rows + [Row(id, contextKey, "user", userMessage)], contextKey, HistoryLimit);
      && history != []
      && history[|history| - 1] == StoredMessage("user", userMessage)
      && var r := Assembled(systemPrompt, history, cap);
         r != [] && r[|r| - 1] == ChatMessage("user", userMessage + CapSuffix(cap))
  {
    var row := Row(id, contextKey, "user", userMessage);
    ChannelLogSnoc(rows, row, contextKey);
    var history := Recent(rows + [row], contextKey, HistoryLimit);
    var log := ChannelLog(rows + [row], contextKey);
    assert log[|log| - 1] == StoredMessage("user", userMessage);
    assert history[|history| - 1] == log[|log| - 1];
    AssembledShape(systemPrompt, history, cap);
  }

  /**
   * Reply extraction: the content of the first choice. Unreachable server,
   * non-2xx status, undecodable body and an empty choice list are errors,
   * with the messages the code formats.
   */
  function ReplyOf(outcome: ChatOutcome): (r: Result<string, string>)
    ensures r.Ok? <==> outcome.Responded? && IsSuccess(outcome.status) && outcome.body.Ok? && outcome.body.value != []
    ensures r.Ok? ==> r.value == outcome.body.value[0].content
    ensures outcome.Responded? && IsSuccess(outcome.status) && outcome.body == Ok([]) ==> r == Err("No response from model")
  {
    match outcome
    case Unreachable(detail) => Err("Failed to reach llama.cpp: " + detail)
    case Responded(status, statusText, body) =>
      if !IsSuccess(status) then Err("llama.cpp returned status " + statusText)
      else
        match body
        case Err(e) => Err("Failed to parse response: " + e)
        case Ok(choices) =>
          if choices == [] then Err("No response from model") else Ok(choices[0].content)
  }

  /**
   * Builds the request of `ask_llama` under the database lock: stores the
   * user turn first, reads the system prompt and the history, pushes them
   * into the message list and appends the reminder to the last message in
   * place.
   */
  method AssemblePrompt(store: ConversationStore, contextKey: string, userMessage: string)
    returns (msgs: seq<ChatMessage>)
    requires store.Valid()
    modifies store`messages, store`nextId
    ensures store.Valid()
    ensures store.messages == old(store.messages) + [Row(old(store.nextId), contextKey, "user", userMessage)]
    ensures store.nextId == old(store.nextId) + 1
    ensures msgs == Assembled(Lookup(store.config, SystemPromptKey).GetOr(""),
                              Recent(store.messages, contextKey, HistoryLimit),
                              ResponseCap(store.config))
  {
    store.StoreMessage(contextKey, "user", userMessage);
    var storedPrompt := store.GetConfig(SystemPromptKey);
    var systemPrompt := storedPrompt.GetOr("");
    var history := store.GetRecentMessages(contextKey, HistoryLimit);
    msgs := PushHistory(systemPrompt, history);
    if msgs != [] && msgs[|msgs| - 1].role == "user" {
      var cap := ResponseCap(store.config);
      var last := msgs[|msgs| - 1];
      msgs := msgs[|msgs| - 1 := ChatMessage(last.role, last.content + CapSuffix(cap))];
    }
  }

  /** The pushes of `ask_llama`: the system message when the prompt is non-empty, then one message per history entry. */
  method PushHistory(systemPrompt: string, history: seq<StoredMessage>) returns (msgs: seq<ChatMessage>)
    ensures msgs == SystemPart(systemPrompt) + HistoryPart(history)
  {
    msgs := [];
    if systemPrompt != "" {
      msgs := msgs + [ChatMessage("system", systemPrompt)];
    }
    var i := 0;
    while i < |history|
      invariant 0 <= i <= |history|
      invariant msgs == SystemPart(systemPrompt) + HistoryPart(history[..i])
    {
      assert HistoryPart(history[..i + 1]) == HistoryPart(history[..i]) + [ChatMessage(history[i].role, history[i].content)];
      msgs := msgs + [ChatMessage(history[i].role, history[i].content)];
      i := i + 1;
    }
    assert history[..i] == history;
  }

  /**
   * `ask_llama`: fails before touching the store when no URL is configured;
   * otherwise the user turn is stored whatever happens next, the assembled
   * prompt is sent, and a reply is stored as an assistant message.
   */
  method AskLlama(store: ConversationStore, llamaConfigured: bool, contextKey: string, userMessage: string, outcome: ChatOutcome)
    returns (r: Result<string, string>, sent: Option<seq<ChatMessage>>)
    requires store.Valid()
    modifies store`messages, store`nextId
    ensures store.Valid()
    ensures !llamaConfigured ==>
      r == Err(NotConfigured) && sent == None && store.messages == old(store.messages) && store.nextId == old(store.nextId)
    ensures llamaConfigured ==>
      var userRow := Row(old(store.nextId), contextKey, "user", userMessage);
      var afterUser := old(store.messages) + [userRow];
      && sent == Some(Assembled(Lookup(store.config, SystemPromptKey).GetOr(""),
                                Recent(afterUser, contextKey, HistoryLimit),
                                ResponseCap(store.config)))
      && r == ReplyOf(outcome)
      && store.messages == afterUser + (if r.Ok? then [Row(old(store.nextId) + 1, contextKey, "assistant", r.value)] else [])
      && store.nextId == old(store.nextId) + (if r.Ok? then 2 else 1)
  {
    if !llamaConfigured {
      return Err(NotConfigured), None;
    }
    var msgs := AssemblePrompt(store, contextKey, userMessage);
    sent := Some(msgs);
    r := ReplyOf(outcome);
    if r.Ok? {
      store.StoreMessage(contextKey, "assistant", r.value);
    }
  }

  /** The request of `query_llm_oneshot`: exactly a system message and a user message. */
  function OneShotMessages(systemPrompt: string, userMessage: string): seq<ChatMessage> {
    [ChatMessage("system", systemPrompt), ChatMessage("user", userMessage)]
  }

  /**
   * `query_llm_oneshot`: no history and no reminder; unlike `ask_llama` it
   * sends the system message even when it is empty, and it stores nothing.
   */
  function QueryLlmOneshot(llamaConfigured: bool, outcome: ChatOutcome): (r: Result<string, string>)
    ensures !llamaConfigured ==> r == Err(NotConfigured)
    ensures llamaConfigured ==> (r.Ok? <==> outcome.Responded? && IsSuccess(outcome.status) && outcome.body.Ok? && outcome.body.value != [])
    ensures r.Ok? ==> r.value == outcome.body.value[0].content
  {
    if !llamaConfigured then Err(NotConfigured) else ReplyOf(outcome)
  }

  /**
   * The one-shot request is what `ask_llama` would send for a one-message
   * history, minus the reminder; with an empty system prompt the two differ
   * in that the one-shot request keeps the empty system message.
   */
  lemma OneShotAgainstAssembled(systemPrompt: string, userMessage: string, cap: nat)
    ensures systemPrompt != "" ==>
      Assembled(systemPrompt, [StoredMessage("user", userMessage)], cap) == OneShotMessages(systemPrompt, userMessage + CapSuffix(cap))
    ensures systemPrompt == "" ==>
      Assembled(systemPrompt, [StoredMessage("user", userMessage)], cap) == OneShotMessages(systemPrompt, userMessage + CapSuffix(cap))[1..]
  {
  }
}
