/** The per-session chat state of app.py: the list of saved meeting titles shown in
    the sidebar, and the chat history seeded with the meeting summary, to which every
    question and its answer are appended. Only the last six history entries are sent
    to the endpoint with each question. */
module Chat {
  import opened Wrappers
  import opened Text
  import opened Endpoint

  /** How many of the most recent history entries are posted with a question. */
  const PayloadSize: nat := 6

  /** `temperature` of every chat request. */
  const ChatTemperature: real := 0.5

  const SystemPreamble: string :=
    "You are a helpful assistant answering questions based on the following meeting summary:\n\n"

  /** The message that seeds the history. */
  function SystemMessage(fullSummary: string): (message: Message)
    ensures message.role == System
    ensures |SystemPreamble| <= |message.content|
    ensures message.content[..|SystemPreamble|] == SystemPreamble
    ensures message.content[|SystemPreamble|..] == fullSummary
  {
    Message(System, SystemPreamble + fullSummary)
  }

  /** The text shown in place of an answer whose response cannot be read. */
  function ReplyError(error: string): (text: string)
    ensures |WarningSign| + |error| < |text|
    ensures text[..|WarningSign|] == WarningSign
    ensures text[|text| - |error|..] == error
  {
    WarningSign + " Error getting response: " + error
  }

  /** The assistant message content made from a readable or unreadable reply. */
  function AnswerText(reply: Reply): (answer: string)
    ensures reply.Content? ==> answer == reply.text
    ensures reply.Malformed? ==>
      && |WarningSign| + |reply.error| < |answer|
      && answer[..|WarningSign|] == WarningSign
      && answer[|answer| - |reply.error|..] == reply.error
  {
    match reply
    case Content(text) => text
    case Malformed(error) => ReplyError(error)
  }

  /** `history[-6:]`: the last six entries, or all of them when there are fewer. */
  function Payload(history: seq<Message>): (payload: seq<Message>)
    ensures |payload| == Min(PayloadSize, |history|)
    ensures forall j :: 0 <= j < |payload| ==> payload[j] == history[|history| - |payload| + j]
  {
    if |history| <= PayloadSize then history else history[|history| - PayloadSize..]
  }

  /** A seeded history: one system message first, and no other system message. */
  predicate Seeded(history: seq<Message>) {
    && |history| >= 1
    && history[0].role == System
    && forall i :: 1 <= i < |history| ==> history[i].role != System
  }

  /** On a seeded history the payload starts with the system message while the
      history holds at most six entries, and holds no system message at all once it
      is longer. */
  lemma PayloadSystemMessage(history: seq<Message>)
    requires Seeded(history)
    ensures |history| <= PayloadSize ==> Payload(history)[0] == history[0]
    ensures |history| > PayloadSize ==> forall j :: 0 <= j < |Payload(history)| ==> Payload(history)[j].role != System
  {
    var payload := Payload(history);
    if |history| > PayloadSize {
      forall j | 0 <= j < |payload| ensures payload[j].role != System {
        assert payload[j] == history[|history| - PayloadSize + j];
      }
    }
  }

  /** The payload of a question ends with that question, and is at most six
      messages long. */
  lemma PayloadEndsWithQuestion(history: seq<Message>, question: string)
    ensures var payload := Payload(history + [Message(User, question)]);
      && 1 <= |payload| <= PayloadSize
      && payload[|payload| - 1] == Message(User, question)
  {
  }

  /** After three answered questions the seeded history holds seven entries, and the
      fourth question's payload no longer carries the summary. */
  lemma SummaryLeavesPayloadOnFourthQuestion(history: seq<Message>, question: string)
    requires Seeded(history) && |history| == 7
    ensures forall m :: m in Payload(history + [Message(User, question)]) ==> m.role != System
  {
    var h := history + [Message(User, question)];
    assert Seeded(h) by {
      assert forall i :: 1 <= i < |history| ==> h[i] == history[i];
    }
    PayloadSystemMessage(h);
  }

  /** The payload the comment at app.py:139 describes, "system prompt + last few
      chat messages": the seed message followed by the most recent entries, six
      messages in all at most. The application posts `Payload` instead. */
  function IntendedPayload(history: seq<Message>): (payload: seq<Message>)
    requires |history| >= 1
    ensures |payload| == Min(PayloadSize, |history|)
    ensures payload[0] == history[0]
    ensures forall j :: 1 <= j < |payload| ==> payload[j] == history[|history| - |payload| + j]
  {
    if |history| <= PayloadSize then history
    else [history[0]] + history[|history| - (PayloadSize - 1)..]
  }

  /** With the intended payload the summary goes with every question, however long
      the chat: the payload starts with the system message, ends with the question
      and holds at most six messages. */
  lemma IntendedPayloadKeepsSummary(history: seq<Message>, question: string)
    requires Seeded(history)
    ensures var payload := IntendedPayload(history + [Message(User, question)]);
      && 2 <= |payload| <= PayloadSize
      && payload[0].role == System
      && payload[|payload| - 1] == Message(User, question)
  {
  }

  predicate NoDuplicates(titles: seq<string>) {
    forall i, j :: 0 <= i < j < |titles| ==> titles[i] != titles[j]
  }

  class Session {
    /** `st.session_state.chat_titles`. */
    var chatTitles: seq<string>
    /** `st.session_state.chat_history`; `None` while the key is absent. */
    var chatHistory: Option<seq<Message>>

    ghost predicate Valid()
      reads this
    {
      && NoDuplicates(chatTitles)
      && (forall i :: 0 <= i < |chatTitles| ==> chatTitles[i] != "")
      && (chatHistory.Some? ==> Seeded(chatHistory.value))
    }

    /** A new session after the sidebar's first run: no titles, no history. */
    constructor ()
      ensures Valid()
      ensures chatTitles == [] && chatHistory == None
    {
      chatTitles := [];
      chatHistory := None;
    }

    /** The title the naming box is pre-filled with: "Meeting " and the number the
        title would have in the list. */
    function DefaultTitle(): (title: string)
      reads this
      ensures |title| > 8 && title[..8] == "Meeting " && title != ""
      ensures (forall i :: 8 <= i < |title| ==> IsDigit(title[i])) && DecimalValue(title[8..]) == |chatTitles| + 1
    {
      DecimalRoundTrip(|chatTitles| + 1);
      assert ("Meeting " + Decimal(|chatTitles| + 1))[8..] == Decimal(|chatTitles| + 1);
      "Meeting " + Decimal(|chatTitles| + 1)
    }

    /** "Save Chat Summary": a title is kept when it is non-empty and not yet saved. */
    method SaveTitle(title: string) returns (saved: bool)
      requires Valid()
      modifies this
      ensures Valid()
      ensures saved <==> title != "" && title !in old(chatTitles)
      ensures chatTitles == if saved then old(chatTitles) + [title] else old(chatTitles)
      ensures chatHistory == old(chatHistory)
    {
      saved := title != "" && title !in chatTitles;
      if saved {
        chatTitles := chatTitles + [title];
      }
    }

    /** Seeds the history with the summary, only when there is no history yet. */
    method InitHistory(fullSummary: string)
      requires Valid()
      modifies this
      ensures Valid()
      ensures chatHistory == if old(chatHistory).Some? then old(chatHistory) else Some([SystemMessage(fullSummary)])
      ensures chatTitles == old(chatTitles)
    {
      if chatHistory.None? {
        chatHistory := Some([SystemMessage(fullSummary)]);
      }
    }

    /** One question: an empty question does nothing; otherwise the question is
        appended, the last six entries are posted, and the answer (or the error text
        for an unreadable response) is appended. When the post itself raises, the
        question stays in the history without an answer and the exception
        propagates. */
    method AskQuestion(question: string, response: Exchange)
      returns (sent: Option<Request>, raised: Option<string>)
      requires Valid() && chatHistory.Some?
      modifies this
      ensures Valid() && chatHistory.Some?
      ensures chatTitles == old(chatTitles)
      ensures question == "" ==> chatHistory == old(chatHistory) && sent == None && raised == None
      ensures question != "" ==>
        sent == Some(Request(ModelName, Payload(old(chatHistory).value + [Message(User, question)]), ChatTemperature, MaxTokens))
      ensures question != "" && response.Responded? ==>
        && chatHistory.value == old(chatHistory).value + [Message(User, question), Message(Assistant, AnswerText(response.reply))]
        && raised == None
      ensures question != "" && response.PostRaised? ==>
        && chatHistory.value == old(chatHistory).value + [Message(User, question)]
        && raised == Some(response.error)
    {
      if question == "" {
        return None, None;
      }
      var history := chatHistory.value + [Message(User, question)];
      chatHistory := Some(history);
      var messagesToSend := if |history| <= PayloadSize then history else history[|history| - PayloadSize..];
      sent := Some(Request(ModelName, messagesToSend, ChatTemperature, MaxTokens));
      if response.PostRaised? {
        return sent, Some(response.error);
      }
      var assistantReply: string;
      if response.reply.Content? {
        assistantReply := response.reply.text;
      } else {
        assistantReply := ReplyError(response.reply.error);
      }
      chatHistory := Some(history + [Message(Assistant, assistantReply)]);
      raised := None;
    }
  }
}
