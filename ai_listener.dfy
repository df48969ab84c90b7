/**
 * The chat widget: a transcript that opens with one greeting from the model, a text box,
 * and a send action that appends the reader's message, waits for the reply service and
 * appends its answer. The asynchronous send is split into the synchronous part
 * (`HandleSend`, which hands the text to the service) and its completion (`CompleteReply`
 * when the service returns, `FailReply` when it throws). The clock `Date.now()` is a
 * parameter.
 */
module AIListenerComponent {
  import opened Wrappers
  import opened Js

  datatype Role = User | Model

  /** The transcript record of the source's shared types. */
  datatype ChatMessage = ChatMessage(id: string, role: Role, content: string, timestamp: int)

  const GREETING: string :=
    "你好。我知道你很累。在这里，你可以放下所有的防备。告诉我，今天发生了什么？或者仅仅是发泄一下，我都在听。"

  const GREETING_ID: string := "init"

  datatype Chat = Chat(isAiEnabled: bool, input: string, messages: seq<ChatMessage>, isLoading: bool)

  function Initial(isAiEnabled: bool, now: nat): Chat
  {
    Chat(isAiEnabled, "", [ChatMessage(GREETING_ID, Model, GREETING, now)], false)
  }

  /** The guards of `handleSend`: AI enabled, `input.trim()` non-empty, no reply pending. */
  predicate CanSend(c: Chat)
  {
    c.isAiEnabled && Trim(c.input) != "" && !c.isLoading
  }

  /** Typing into the text box, which is disabled while AI is off or a reply is loading. */
  function Type(c: Chat, text: string): Chat
  {
    if !c.isAiEnabled || c.isLoading then c else c.(input := text)
  }

  /** The synchronous part of `handleSend`. */
  function Send(c: Chat, now: nat): Chat
  {
    if !CanSend(c) then c
    else c.(messages := c.messages + [ChatMessage(Decimal(now), User, c.input, now)], input := "", isLoading := true)
  }

  /** The service answered: the reply is appended and loading ends. */
  function Reply(c: Chat, responseText: string, now: nat): Chat
  {
    c.(messages := c.messages + [ChatMessage(Decimal(now + 1), Model, responseText, now)], isLoading := false)
  }

  /** The service threw: nothing is appended, loading still ends. */
  function Fail(c: Chat): Chat
  {
    c.(isLoading := false)
  }

  /** `handleKeyPress`: Enter without Shift sends (and suppresses the newline). */
  predicate SendsOnKey(key: string, shiftKey: bool)
  {
    key == "Enter" && !shiftKey
  }

  function KeyPress(c: Chat, key: string, shiftKey: bool, now: nat): Chat
  {
    if SendsOnKey(key, shiftKey) then Send(c, now) else c
  }

  /** Send does nothing when AI is off, the input is blank, or a reply is pending. */
  lemma SendGuards(c: Chat, now: nat)
    ensures !c.isAiEnabled ==> Send(c, now) == c
    ensures IsBlank(c.input) ==> Send(c, now) == c
    ensures c.isLoading ==> Send(c, now) == c
  {
    TrimEmptyIffBlank(c.input);
  }

  /**
   * A send that passes the guards appends exactly one user message holding the input as
   * typed (untrimmed), clears the box and starts loading.
   */
  lemma SendAppendsUserMessage(c: Chat, now: nat)
    requires c.isAiEnabled && !IsBlank(c.input) && !c.isLoading
    ensures |Send(c, now).messages| == |c.messages| + 1
    ensures Send(c, now).messages[..|c.messages|] == c.messages
    ensures Send(c, now).messages[|c.messages|].role == User
    ensures Send(c, now).messages[|c.messages|].content == c.input
    ensures Send(c, now).input == "" && Send(c, now).isLoading
  {
    TrimEmptyIffBlank(c.input);
  }

  /** Enter alone sends, Shift+Enter does not. */
  lemma EnterSends(c: Chat, now: nat)
    ensures KeyPress(c, "Enter", false, now) == Send(c, now)
    ensures KeyPress(c, "Enter", true, now) == c
  {
  }

  /**
   * Completing a pending send: a reply appends exactly one model message carrying the
   * service's text, a failure appends nothing; both end loading. With nothing pending,
   * neither does anything.
   */
  lemma CompletionSteps(c: Chat, text: string, now: nat)
    ensures c.isLoading ==>
      && |Step(c, Replied(text, now)).messages| == |c.messages| + 1
      && Step(c, Replied(text, now)).messages[..|c.messages|] == c.messages
      && Step(c, Replied(text, now)).messages[|c.messages|].role == Model
      && Step(c, Replied(text, now)).messages[|c.messages|].content == text
      && !Step(c, Replied(text, now)).isLoading
      && Step(c, Replied(text, now)).input == c.input
    ensures c.isLoading ==>
      Step(c, ServiceThrew).messages == c.messages && !Step(c, ServiceThrew).isLoading
    ensures !c.isLoading ==> Step(c, Replied(text, now)) == c && Step(c, ServiceThrew) == c
  {
  }

  /**
   * The reply's id (`Date.now() + 1` at the reply) differs from the id of the message it
   * answers (`Date.now()` at the send), provided the clock has not been set back between
   * the send and the reply.
   */
  lemma ReplyIdDiffersFromSendId(c: Chat, text: string, sentAt: nat, repliedAt: nat)
    requires CanSend(c) && sentAt <= repliedAt
    ensures Reply(Send(c, sentAt), text, repliedAt).messages[|c.messages| + 1].id !=
            Send(c, sentAt).messages[|c.messages|].id
  {
    var sent := Send(c, sentAt);
    assert sent.messages[|c.messages|].id == Decimal(sentAt);
    assert Reply(sent, text, repliedAt).messages[|c.messages| + 1].id == Decimal(repliedAt + 1);
    DecimalRoundTrip(sentAt);
    DecimalRoundTrip(repliedAt + 1);
  }

  datatype ChatEvent =
    | Typed(text: string)
    | SendClicked(now: nat)
    | KeyPressed(key: string, shiftKey: bool, at: nat)
    | Replied(responseText: string, repliedAt: nat)
    | ServiceThrew

  /** One event; the completion of a send only happens while that send is pending. */
  function Step(c: Chat, e: ChatEvent): Chat
  {
    match e
    case Typed(text) => Type(c, text)
    case SendClicked(now) => Send(c, now)
    case KeyPressed(key, shiftKey, now) => KeyPress(c, key, shiftKey, now)
    case Replied(text, now) => if c.isLoading then Reply(c, text, now) else c
    case ServiceThrew => if c.isLoading then Fail(c) else c
  }

  function Run(c: Chat, events: seq<ChatEvent>): Chat
    decreases |events|
  {
    if events == [] then c else Run(Step(c, events[0]), events[1..])
  }

  /** The transcript only grows at its end: no message is ever removed, changed or reordered. */
  lemma {:induction false} TranscriptAppendOnly(c: Chat, events: seq<ChatEvent>)
    ensures |c.messages| <= |Run(c, events).messages|
    ensures Run(c, events).messages[..|c.messages|] == c.messages
    decreases |events|
  {
    if events != [] {
      var next := Step(c, events[0]);
      TranscriptAppendOnly(next, events[1..]);
      assert next.messages[..|c.messages|] == c.messages;
      assert Run(c, events).messages[..|next.messages|][..|c.messages|] == Run(c, events).messages[..|c.messages|];
    }
  }

  /** A pending reply always follows a user message at the end of the transcript. */
  ghost predicate Inv(c: Chat)
  {
    && |c.messages| > 0
    && c.messages[0] == ChatMessage(GREETING_ID, Model, GREETING, c.messages[0].timestamp)
    && (c.isLoading ==> c.messages[|c.messages| - 1].role == User)
  }

  lemma {:induction false} RunKeepsInv(c: Chat, events: seq<ChatEvent>)
    requires Inv(c)
    ensures Inv(Run(c, events))
    decreases |events|
  {
    if events != [] {
      RunKeepsInv(Step(c, events[0]), events[1..]);
    }
  }

  /**
   * Whatever happens, the transcript opens with the one greeting it started with, and
   * while a reply is pending the last message is the reader's.
   */
  lemma GreetingStaysFirst(isAiEnabled: bool, now: nat, events: seq<ChatEvent>)
    ensures |Run(Initial(isAiEnabled, now), events).messages| > 0
    ensures Run(Initial(isAiEnabled, now), events).messages[0] == ChatMessage(GREETING_ID, Model, GREETING, now)
    ensures Run(Initial(isAiEnabled, now), events).isLoading ==>
      Last(Run(Initial(isAiEnabled, now), events).messages).role == User
  {
    RunKeepsInv(Initial(isAiEnabled, now), events);
    TranscriptAppendOnly(Initial(isAiEnabled, now), events);
  }

  function Last(messages: seq<ChatMessage>): ChatMessage
    requires messages != []
  {
    messages[|messages| - 1]
  }

  /** With AI switched off the widget never changes its transcript. */
  lemma {:induction false} DisabledNeverSends(c: Chat, events: seq<ChatEvent>)
    requires !c.isAiEnabled && !c.isLoading
    ensures Run(c, events) == c
    decreases |events|
  {
    if events != [] {
      DisabledNeverSends(Step(c, events[0]), events[1..]);
    }
  }

  /** The AIListener component's state. */
  class AIListener {
    const isAiEnabled: bool
    var input: string
    var messages: seq<ChatMessage>
    var isLoading: bool

    function Model(): Chat
      reads this
    {
      Chat(isAiEnabled, input, messages, isLoading)
    }

    /** Mounts the widget; `isAiEnabled` is whether the build saw an API key. */
    constructor(isAiEnabled: bool, now: nat)
      ensures Model() == Initial(isAiEnabled, now)
    {
      this.isAiEnabled := isAiEnabled;
      input := "";
      messages := [ChatMessage(GREETING_ID, Role.Model, GREETING, now)];
      isLoading := false;
    }

    /** The text box's change handler. */
    method SetInput(text: string)
      modifies this
      ensures Model() == Type(old(Model()), text)
    {
      if !isAiEnabled || isLoading {
        return;
      }
      input := text;
    }

    /**
     * The synchronous part of `handleSend`; `request` is the text handed to the reply
     * service, or None when a guard returned early.
     */
    method HandleSend(now: nat) returns (request: Option<string>)
      modifies this
      ensures Model() == Send(old(Model()), now)
      ensures request == if CanSend(old(Model())) then Some(old(input)) else None
    {
      if !isAiEnabled {
        return None;
      }
      if Trim(input) == "" || isLoading {
        return None;
      }
      var userMsg := ChatMessage(Decimal(now), User, input, now);
      messages := messages + [userMsg];
      input := "";
      isLoading := true;
      request := Some(userMsg.content);
    }

    /** The awaited service call returned `responseText`. */
    method CompleteReply(responseText: string, now: nat)
      requires isLoading
      modifies this
      ensures Model() == Reply(old(Model()), responseText, now)
    {
      var botMsg := ChatMessage(Decimal(now + 1), Role.Model, responseText, now);
      messages := messages + [botMsg];
      isLoading := false;
    }

    /** The awaited service call threw. */
    method FailReply()
      requires isLoading
      modifies this
      ensures Model() == Fail(old(Model()))
    {
      isLoading := false;
    }

    method HandleKeyPress(key: string, shiftKey: bool, now: nat) returns (request: Option<string>)
      modifies this
      ensures Model() == KeyPress(old(Model()), key, shiftKey, now)
      ensures request == if SendsOnKey(key, shiftKey) && CanSend(old(Model())) then Some(old(input)) else None
    {
      request := None;
      if key == "Enter" && !shiftKey {
        request := HandleSend(now);
      }
    }
  }
}
