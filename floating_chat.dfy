/**
 * The floating chat widget: an open/closed window, an input line, an append-only
 * transcript that starts with a greeting, and a typing indicator. Sending posts
 * the user's line; a later reply step (the delayed callback, with its random pick
 * given as an index) posts one of four canned answers.
 */
module FloatingChat {
  import opened Strings

  datatype ChatMessage = ChatMessage(text: string, isUser: bool)

  /** The bot's first message. */
  const Greeting: string :=
    "Hi! \U{1F44B} I'm your SolarBright AI assistant. How can I help you with solar energy today?"

  /** The canned replies, one of which answers each message. */
  const Responses: seq<string> := [
    "That's a great question! Our solar panels can reduce your energy bills by up to 70%. Would you like to schedule a free consultation?",
    "We offer both residential and commercial solar installations. Our team has installed over 5,000 systems. Can I help you with a quote?",
    "Solar panels typically pay for themselves within 5-7 years through energy savings. Plus, there are federal tax credits available! Want to learn more?",
    "We provide 25-year warranties on all our installations. Let me connect you with one of our solar experts. What's the best time to call you?"
  ]

  /** The key that sends from the input line. */
  const EnterKey := "Enter"

  /** A user message is never blank; a bot message is the greeting or a canned reply. */
  predicate WellFormed(m: ChatMessage, greeting: string, replies: seq<string>) {
    if m.isUser then !IsBlank(m.text) else m.text == greeting || m.text in replies
  }

  /** `!message.trim()`: the send button is disabled, and sending does nothing. */
  function SendBlocked(input: string): (r: bool)
    ensures r <==> IsBlank(input)
  {
    TrimEmptyIffBlank(input);
    Trim(input) == ""
  }

  /** The number of messages the user sent. */
  function UserCount(msgs: seq<ChatMessage>): nat {
    if msgs == [] then 0
    else UserCount(msgs[..|msgs| - 1]) + (if msgs[|msgs| - 1].isUser then 1 else 0)
  }

  /** The number of messages the bot sent. */
  function BotCount(msgs: seq<ChatMessage>): nat {
    if msgs == [] then 0
    else BotCount(msgs[..|msgs| - 1]) + (if msgs[|msgs| - 1].isUser then 0 else 1)
  }

  /** The transcript opens with the greeting, every message is well formed, each
      user message is answered or awaiting its answer, and the indicator shows
      only while an answer is awaited. */
  ghost predicate Consistent(messages: seq<ChatMessage>, pending: nat, isTyping: bool,
                             greeting: string, replies: seq<string>) {
    && |messages| >= 1
    && messages[0] == ChatMessage(greeting, false)
    && (forall k | 0 <= k < |messages| :: WellFormed(messages[k], greeting, replies))
    && UserCount(messages) + 1 == BotCount(messages) + pending
    && (isTyping ==> pending > 0)
  }

  class Chat {
    /** The widget's greeting and canned replies. */
    const greeting: string
    const replies: seq<string>
    var isOpen: bool
    var message: string
    var messages: seq<ChatMessage>
    var isTyping: bool
    /** Replies scheduled by a send and not yet posted. */
    ghost var pending: nat

    /** The transcript, the awaited replies and the indicator agree. */
    ghost predicate Valid()
      reads this
    {
      Consistent(messages, pending, isTyping, greeting, replies)
    }

    /** Closed, empty input, the greeting alone, not typing. */
    constructor ()
      ensures greeting == Greeting && replies == Responses
      ensures !isOpen && message == "" && !isTyping
      ensures messages == [ChatMessage(Greeting, false)]
      ensures pending == 0 && Valid()
    {
      greeting := Greeting;
      replies := Responses;
      isOpen := false;
      message := "";
      messages := [ChatMessage(Greeting, false)];
      isTyping := false;
      pending := 0;
      assert [ChatMessage(Greeting, false)][..0] == [];
    }

    /** Typing into the input line. */
    method SetMessage(value: string)
      modifies this
      ensures message == value
      ensures isOpen == old(isOpen) && messages == old(messages) && isTyping == old(isTyping)
      ensures pending == old(pending)
    {
      message := value;
    }

    /** `handleSend`: a blank line changes nothing; otherwise the line as typed is
        appended as the user's, the input is cleared and a reply is awaited. */
    method HandleSend()
      requires Valid()
      modifies this
      ensures Valid()
      ensures IsBlank(old(message)) ==>
        message == old(message) && messages == old(messages) && isTyping == old(isTyping)
        && pending == old(pending)
      ensures !IsBlank(old(message)) ==>
        messages == old(messages) + [ChatMessage(old(message), true)] && message == ""
        && isTyping && pending == old(pending) + 1
      ensures isOpen == old(isOpen)
    {
      if SendBlocked(message) {
        return;
      }
      var userMessage := message;
      message := "";
      AppendCounts(messages, ChatMessage(userMessage, true));
      messages := messages + [ChatMessage(userMessage, true)];
      isTyping := true;
      pending := pending + 1;
    }

    /** The delayed callback: the `pick`-th canned reply is appended and the
        indicator cleared. */
    method Respond(pick: nat)
      requires Valid() && pending > 0 && pick < |replies|
      modifies this
      ensures Valid()
      ensures messages == old(messages) + [ChatMessage(replies[pick], false)]
      ensures !isTyping && pending == old(pending) - 1
      ensures message == old(message) && isOpen == old(isOpen)
    {
      var randomResponse := replies[pick];
      ReplyKeepsConsistent(messages, pending, isTyping, greeting, replies, pick);
      messages := messages + [ChatMessage(randomResponse, false)];
      isTyping := false;
      pending := pending - 1;
    }

    /** `onKeyPress`: Enter sends, any other key does nothing. */
    method HandleKeyPress(key: string)
      requires Valid()
      modifies this
      ensures Valid()
      ensures key == EnterKey && !IsBlank(old(message)) ==>
        messages == old(messages) + [ChatMessage(old(message), true)] && message == ""
        && isTyping && pending == old(pending) + 1
      ensures key != EnterKey || IsBlank(old(message)) ==>
        message == old(message) && messages == old(messages) && isTyping == old(isTyping)
        && pending == old(pending)
      ensures isOpen == old(isOpen)
    {
      if key == EnterKey {
        HandleSend();
      }
    }

    /** The chat button opens the window. */
    method Open()
      modifies this
      ensures isOpen
      ensures message == old(message) && messages == old(messages) && isTyping == old(isTyping)
      ensures pending == old(pending)
    {
      isOpen := true;
    }

    /** The minimize button only closes the window. */
    method Minimize()
      modifies this
      ensures !isOpen
      ensures message == old(message) && messages == old(messages) && isTyping == old(isTyping)
      ensures pending == old(pending)
    {
      isOpen := false;
    }

    /** The close button only closes the window: the transcript and input survive. */
    method Close()
      modifies this
      ensures !isOpen
      ensures message == old(message) && messages == old(messages) && isTyping == old(isTyping)
      ensures pending == old(pending)
    {
      isOpen := false;
    }
  }

  /** Posting a canned reply keeps the transcript consistent, with one reply fewer
      awaited and the indicator off. */
  lemma ReplyKeepsConsistent(messages: seq<ChatMessage>, pending: nat, isTyping: bool,
                             greeting: string, replies: seq<string>, pick: nat)
    requires Consistent(messages, pending, isTyping, greeting, replies)
    requires pending > 0 && pick < |replies|
    ensures Consistent(messages + [ChatMessage(replies[pick], false)], pending - 1, false, greeting, replies)
  {
    var m := ChatMessage(replies[pick], false);
    assert WellFormed(m, greeting, replies);
    AppendKeepsWellFormed(messages, m, greeting, replies);
    AppendCounts(messages, m);
  }

  lemma AppendKeepsWellFormed(messages: seq<ChatMessage>, m: ChatMessage, greeting: string, replies: seq<string>)
    requires |messages| >= 1 && WellFormed(m, greeting, replies)
    requires forall k | 0 <= k < |messages| :: WellFormed(messages[k], greeting, replies)
    ensures (messages + [m])[0] == messages[0]
    ensures forall k | 0 <= k < |messages + [m]| :: WellFormed((messages + [m])[k], greeting, replies)
  {
    var all := messages + [m];
    forall k | 0 <= k < |all| ensures WellFormed(all[k], greeting, replies) {
      if k < |messages| {
        assert all[k] == messages[k];
      }
    }
  }

  /** Appending a message counts it on its side and leaves the other count alone. */
  lemma AppendCounts(msgs: seq<ChatMessage>, m: ChatMessage)
    ensures UserCount(msgs + [m]) == UserCount(msgs) + (if m.isUser then 1 else 0)
    ensures BotCount(msgs + [m]) == BotCount(msgs) + (if m.isUser then 0 else 1)
  {
    assert (msgs + [m])[..|msgs|] == msgs;
  }

  /** Every message is counted once, on one side. */
  lemma {:induction false} CountsSplit(msgs: seq<ChatMessage>)
    ensures UserCount(msgs) + BotCount(msgs) == |msgs|
  {
    if msgs != [] {
      CountsSplit(msgs[..|msgs| - 1]);
    }
  }

  /** With the replies awaited `pending`, the transcript holds one more bot
      message than user messages once all replies are in, and never more. */
  lemma {:induction false} TranscriptBalance(msgs: seq<ChatMessage>, pending: nat)
    requires UserCount(msgs) + 1 == BotCount(msgs) + pending
    ensures BotCount(msgs) <= UserCount(msgs) + 1
    ensures 2 * UserCount(msgs) + 1 == |msgs| + pending
  {
    CountsSplit(msgs);
  }
}
