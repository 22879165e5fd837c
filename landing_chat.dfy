/** The scripted chat on the landing page (src/components/LandingChat.tsx):
    a visitor's question is answered, after a short pause, with one of five
    canned answers picked by keywords. The pause and the timestamps are not
    modelled. */
module LandingChat {
  import opened Wrappers
  import opened Text

  // ---------------------------------------------------------------------
  // Canned answers
  // ---------------------------------------------------------------------

  /** The keys of the answer table. */
  datatype Topic = Anonymous | Bubble | Help | Private | Default

  /** The canned answer stored under each key. */
  function AnswerText(topic: Topic): string {
    match topic
    case Anonymous =>
      "We believe in complete anonymity. You never need to share your real identity, email, or any personal details. Connect authentically through shared experiences, not names or faces."
    case Bubble =>
      "Our AI matches you with 5-6 people facing similar challenges. It's like finding your tribe - people who truly understand what you're going through. Together, you grow stronger."
    case Help =>
      "We offer peer support through bubbles, access to licensed professionals, self-help resources, and a safe space to express yourself. Whether you need someone to listen or professional guidance, we're here."
    case Private =>
      "Absolutely. Your privacy is our top priority. All conversations are encrypted, no personal information is required, and you control what you share. Your safe space, your rules."
    case Default =>
      "I'm here to help you learn about Safe Space - a mental health community built on anonymity, empathy, and support. What would you like to know?"
  }

  /** The assistant's opening line. */
  function Greeting(): string {
    "Hi! Ask me anything about Safe Space."
  }

  /** The keyword groups, tested in this order on the lower-cased question. */
  predicate AboutAnonymity(msg: string) { Contains(msg, "anonym") || Contains(msg, "identity") }
  predicate AboutBubbles(msg: string) { Contains(msg, "bubble") || Contains(msg, "match") || Contains(msg, "group") }
  predicate AboutHelp(msg: string) { Contains(msg, "help") || Contains(msg, "support") || Contains(msg, "professional") }
  predicate AboutPrivacy(msg: string) { Contains(msg, "private") || Contains(msg, "safe") || Contains(msg, "secure") }

  /** The order in which the keyword groups are tried. */
  function Rank(t: Topic): nat {
    match t
    case Anonymous => 0
    case Bubble => 1
    case Help => 2
    case Private => 3
    case Default => 4
  }

  /** The lower-cased question mentions the topic's keyword group; every
      question qualifies for the default answer. */
  predicate Mentions(msg: string, t: Topic) {
    match t
    case Anonymous => AboutAnonymity(msg)
    case Bubble => AboutBubbles(msg)
    case Help => AboutHelp(msg)
    case Private => AboutPrivacy(msg)
    case Default => true
  }

  /** The answer to a question: the topic of highest priority among those
      the lower-cased question mentions. */
  function GetResponse(userMessage: string): (r: Topic)
    ensures Mentions(ToLower(userMessage), r)
    ensures forall t :: Rank(t) < Rank(r) ==> !Mentions(ToLower(userMessage), t)
  {
    var msg := ToLower(userMessage);
    if AboutAnonymity(msg) then Anonymous
    else if AboutBubbles(msg) then Bubble
    else if AboutHelp(msg) then Help
    else if AboutPrivacy(msg) then Private
    else Default
  }

  /** The text of the answer to a question. */
  function Reply(userMessage: string): string {
    AnswerText(GetResponse(userMessage))
  }

  /** The answer is determined by that description: a topic the question
      mentions, with no mentioned topic of higher priority, is the answer. */
  lemma GetResponsePriority(userMessage: string, t: Topic)
    requires Mentions(ToLower(userMessage), t)
    requires forall u :: Rank(u) < Rank(t) ==> !Mentions(ToLower(userMessage), u)
    ensures GetResponse(userMessage) == t
  {
    var r := GetResponse(userMessage);
    assert Rank(r) == Rank(t) ==> r == t;
  }

  /** The choice ignores the letter case of the question. */
  lemma GetResponseIgnoresCase(userMessage: string)
    ensures GetResponse(ToLower(userMessage)) == GetResponse(userMessage)
  {
    ToLowerIdempotent(userMessage);
  }

  // ---------------------------------------------------------------------
  // The chat state
  // ---------------------------------------------------------------------

  datatype Role = User | Assistant

  datatype Message = Message(role: Role, content: string)

  /** What a send would post: an explicit, non-empty text (a starter prompt)
      wins over the trimmed input box. */
  function TextToSend(messageText: Option<string>, input: string): (r: string)
    ensures messageText.Some? && messageText.value != "" ==> r == messageText.value
    ensures (messageText.None? || messageText.value == "") ==> r == Trim(input)
    ensures r == "" <==> (messageText.None? || messageText.value == "") && forall i :: 0 <= i < |input| ==> IsSpace(input[i])
  {
    if messageText.Some? && messageText.value != "" then messageText.value else Trim(input)
  }

  /** A well-formed transcript: the greeting, then each question (never
      empty) followed by its canned answer; `pending` holds exactly when the
      last question is still waiting for its answer. */
  ghost predicate Transcript(ms: seq<Message>, pending: bool, reply: string -> string) {
    |ms| >= 1 && ms[0] == Message(Assistant, Greeting()) &&
    (|ms| % 2 == 0 <==> pending) &&
    (forall i :: 1 <= i < |ms| && i % 2 == 1 ==> ms[i].role == User && ms[i].content != "") &&
    (forall i :: 2 <= i < |ms| && i % 2 == 0 ==> ms[i] == Message(Assistant, reply(ms[i - 1].content)))
  }

  /** Posting a non-empty question when none is pending leaves it pending. */
  lemma QuestionPending(ms: seq<Message>, question: string, reply: string -> string)
    requires Transcript(ms, false, reply) && question != ""
    ensures Transcript(ms + [Message(User, question)], true, reply)
  {
    var next := ms + [Message(User, question)];
    forall i | 2 <= i < |next| && i % 2 == 0
      ensures next[i] == Message(Assistant, reply(next[i - 1].content))
    {
      assert next[i] == ms[i] && next[i - 1] == ms[i - 1];
    }
  }

  /** Answering the pending question completes the transcript. */
  lemma AnswerCompletes(ms: seq<Message>, question: string, reply: string -> string)
    requires Transcript(ms, true, reply) && ms[|ms| - 1] == Message(User, question)
    ensures Transcript(ms + [Message(Assistant, reply(question))], false, reply)
  {
    var next := ms + [Message(Assistant, reply(question))];
    forall i | 2 <= i < |next| && i % 2 == 0
      ensures next[i] == Message(Assistant, reply(next[i - 1].content))
    {
      if i < |ms| {
        assert next[i] == ms[i] && next[i - 1] == ms[i - 1];
      }
    }
  }

  /** The send button is greyed out while the box holds only white space or
      a reply is pending. Its state agrees with what `handleSend` would do
      with the box: an enabled button posts the trimmed box, a disabled one
      would post nothing. */
  predicate SendDisabled(input: string, isTyping: bool)
    ensures SendDisabled(input, isTyping) <==> isTyping || forall i :: 0 <= i < |input| ==> IsSpace(input[i])
    ensures SendDisabled(input, isTyping) <==> TextToSend(None, input) == "" || isTyping
    ensures !SendDisabled(input, isTyping) ==> TextToSend(None, input) == Trim(input) != ""
  {
    Trim(input) == "" || isTyping
  }

  class Chat {
    var messages: seq<Message>
    var input: string
    var isTyping: bool

    ghost predicate Valid()
      reads this
    {
      Transcript(messages, isTyping, Reply)
    }

    /** The chat opens with the greeting alone, an empty box and no reply
        pending. */
    constructor()
      ensures Valid()
      ensures messages == [Message(Assistant, Greeting())] && input == "" && !isTyping
    {
      messages := [Message(Assistant, Greeting())];
      input := "";
      isTyping := false;
    }

    /** Editing the box, which is disabled while a reply is pending. */
    method Type(value: string)
      requires !isTyping
      modifies this
      ensures input == value && messages == old(messages) && isTyping == old(isTyping)
    {
      input := value;
    }

    /** The first half of a send: post the question, clear the box, show the
        typing indicator. Returns the question, or `None` when nothing is
        sent because the text is empty or a reply is pending. */
    method BeginSend(messageText: Option<string>) returns (question: Option<string>)
      requires Valid()
      modifies this
      ensures Valid()
      ensures var text := TextToSend(messageText, old(input));
        if text == "" || old(isTyping) then
          question.None? && messages == old(messages) && input == old(input) && isTyping == old(isTyping)
        else
          question == Some(text) && messages == old(messages) + [Message(User, text)] && input == "" && isTyping
    {
      var text := TextToSend(messageText, input);
      if text == "" || isTyping {
        return None;
      }
      QuestionPending(messages, text, Reply);
      messages := messages + [Message(User, text)];
      input := "";
      isTyping := true;
      question := Some(text);
    }

    /** The second half: post the canned answer to the question and hide the
        typing indicator. */
    method FinishSend(question: string)
      requires Valid() && isTyping && messages[|messages| - 1] == Message(User, question)
      modifies this
      ensures Valid()
      ensures messages == old(messages) + [Message(Assistant, Reply(question))]
      ensures input == old(input) && !isTyping
    {
      AnswerCompletes(messages, question, Reply);
      messages := messages + [Message(Assistant, Reply(question))];
      isTyping := false;
    }

    /** `handleSend`: with something to send and no reply pending, appends the
        question and then its answer and clears the box; otherwise changes
        nothing. `typingInBetween` is the indicator's state between the two
        appends. */
    method HandleSend(messageText: Option<string>) returns (typingInBetween: bool)
      requires Valid()
      modifies this
      ensures Valid()
      ensures var text := TextToSend(messageText, old(input));
        if text == "" || old(isTyping) then
          messages == old(messages) && input == old(input) && isTyping == old(isTyping)
        else
          messages == old(messages) + [Message(User, text), Message(Assistant, Reply(text))] &&
          input == "" && !isTyping && typingInBetween
    {
      ghost var before, sent := messages, TextToSend(messageText, input);
      ghost var skip := sent == "" || isTyping;
      var question := BeginSend(messageText);
      assert question.Some? <==> !skip;
      typingInBetween := isTyping;
      if question.Some? {
        assert question.value == sent;
        ghost var asked := messages;
        FinishSend(question.value);
        assert asked + [Message(Assistant, Reply(sent))] ==
          before + [Message(User, sent), Message(Assistant, Reply(sent))];
      }
    }

    /** Enter without Shift sends what is in the box, exactly when the send
        button is enabled; any other key only edits it, which `Type`
        models. */
    method HandleKeyDown(key: string, shiftKey: bool)
      requires Valid()
      modifies this
      ensures Valid()
      ensures !(key == "Enter" && !shiftKey) || SendDisabled(old(input), old(isTyping)) ==>
        messages == old(messages) && input == old(input) && isTyping == old(isTyping)
      ensures key == "Enter" && !shiftKey && !SendDisabled(old(input), old(isTyping)) ==>
        messages == old(messages) + [Message(User, Trim(old(input))), Message(Assistant, Reply(Trim(old(input))))] &&
        input == "" && !isTyping
    {
      if key == "Enter" && !shiftKey {
        var _ := HandleSend(None);
      }
    }
  }
}
