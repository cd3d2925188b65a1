/** The chat page: a blank question is ignored; otherwise the input is
    cleared, the question is appended to the conversation, and when the
    request settles exactly one reply (the assistant's answer or an error)
    is appended. Messages are never changed or removed. */
module AssistantComponent {
  import opened Common
  import opened Corpus
  import AssistantRoutes

  const NoAnswerText: string := "Je n'ai pas pu comprendre la réponse."
  const DefaultErrorText: string := "Une erreur est survenue lors de la communication avec l'assistant."

  datatype Sender = UserSender | AssistantSender | ErrorSender

  /** The fields of `response.data` the page reads; absent ones are None. */
  datatype AskData = AskData(answer: Option<string>, reponse: Option<string>)

  datatype Message = Message(sender: Sender, text: string, metadata: Option<AskData>)

  /** How the POST settled: the response body, or a failure carrying the
      server's `message` if there was one. */
  datatype ApiOutcome = Answered(data: AskData) | Failed(message: Option<string>)

  /** `answer || reponse || "Je n'ai pas pu comprendre la réponse."` */
  function AnswerText(data: AskData): (text: string)
    ensures text != ""
    ensures text == OrEmpty(data.answer) || text == OrEmpty(data.reponse) || text == NoAnswerText
  {
    Or(OrEmpty(data.answer), Or(OrEmpty(data.reponse), NoAnswerText))
  }

  /** `error.response?.data?.message || <default>` */
  function ErrorText(message: Option<string>): (text: string)
    ensures text != ""
    ensures message.Some? && message.value != "" ==> text == message.value
    ensures message.None? || message.value == "" ==> text == DefaultErrorText
  {
    Or(OrEmpty(message), DefaultErrorText)
  }

  /** The fallback chain in order: a non-empty `answer` wins, then a non-empty
      `reponse`, then the fixed text. */
  lemma AnswerFallbackChain(data: AskData)
    ensures OrEmpty(data.answer) != "" ==> AnswerText(data) == data.answer.value
    ensures OrEmpty(data.answer) == "" && OrEmpty(data.reponse) != "" ==> AnswerText(data) == data.reponse.value
    ensures OrEmpty(data.answer) == "" && OrEmpty(data.reponse) == "" ==> AnswerText(data) == NoAnswerText
  {
  }

  /** What the page receives from a 200 of POST /ask: the reply body has an
      `answer` and no `reponse`. */
  function FromReply(response: AssistantRoutes.AskResponse): AskData {
    AskData(Some(response.answer), None)
  }

  /** The page shows exactly the answer the server sent and logged, both for
      a match from the knowledge base and for the "not found" fallback. */
  lemma ShowsServerAnswer(search: AssistantRoutes.Searcher, question: string)
    requires AssistantRoutes.WellBehaved(search)
    requires search(AssistantRoutes.BuildIndex(AdministrativeData()), question, AssistantRoutes.SearchLimit).Some?
    ensures var results := search(AssistantRoutes.BuildIndex(AdministrativeData()), question, AssistantRoutes.SearchLimit).value;
      AnswerText(FromReply(AssistantRoutes.ResponseFor(question, results)))
        == AssistantRoutes.AssistantAnswer(results)
  {
    AssistantRoutes.SearchedAnswerNonEmpty(search, question);
  }

  /** Whether the send button is enabled. */
  predicate CanSend(loading: bool, input: string) {
    !loading && Trim(input) != ""
  }

  /** The send button is enabled exactly when no request is pending and the
      input holds something other than white space. */
  lemma CanSendIffNotBlank(loading: bool, input: string)
    ensures CanSend(loading, input) <==> !loading && !Blank(input)
  {
    TrimEmptyIffBlank(input);
  }

  /** The page's state. */
  class ChatState {
    var messages: seq<Message>
    var input: string
    var loading: bool

    constructor ()
      ensures messages == [] && input == "" && !loading
    {
      messages := [];
      input := "";
      loading := false;
    }

    /** `handleSubmit` up to the request: white space alone changes nothing
        and sends nothing; otherwise the untrimmed input is sent, appended as
        the user's message and cleared, and loading starts. */
    method Submit() returns (sent: Option<string>)
      modifies this
      ensures Blank(old(input)) ==>
        sent.None? && messages == old(messages) && input == old(input) && loading == old(loading)
      ensures !Blank(old(input)) ==>
        && sent == Some(old(input))
        && messages == old(messages) + [Message(UserSender, old(input), None)]
        && input == ""
        && loading
    {
      TrimEmptyIffBlank(input);
      if Trim(input) == "" {
        return None;
      }
      var userMessage := input;
      input := "";
      messages := messages + [Message(UserSender, userMessage, None)];
      loading := true;
      sent := Some(userMessage);
    }

    /** `handleSubmit` after the request settles: exactly one message is
        appended, the assistant's answer or the error, and loading ends. */
    method Receive(outcome: ApiOutcome)
      modifies this
      ensures outcome.Answered? ==>
        messages == old(messages) + [Message(AssistantSender, AnswerText(outcome.data), Some(outcome.data))]
      ensures outcome.Failed? ==>
        messages == old(messages) + [Message(ErrorSender, ErrorText(outcome.message), None)]
      ensures input == old(input) && !loading
    {
      if outcome.Answered? {
        var assistantResponse := AnswerText(outcome.data);
        messages := messages + [Message(AssistantSender, assistantResponse, Some(outcome.data))];
      } else {
        messages := messages + [Message(ErrorSender, ErrorText(outcome.message), None)];
      }
      loading := false;
    }
  }

  /** One whole submission: a blank input adds nothing; any other adds the
      question and then one reply, keeping every earlier message as it was. */
  method SubmitAndSettle(chat: ChatState, outcome: ApiOutcome) returns (sent: Option<string>)
    modifies chat
    ensures Blank(old(chat.input)) ==> chat.messages == old(chat.messages)
    ensures !Blank(old(chat.input)) ==>
      && |chat.messages| == |old(chat.messages)| + 2
      && chat.messages[|old(chat.messages)|] == Message(UserSender, old(chat.input), None)
      && chat.messages[|old(chat.messages)| + 1].sender != UserSender
      && !chat.loading
    ensures chat.messages[..|old(chat.messages)|] == old(chat.messages)
  {
    sent := chat.Submit();
    if sent.Some? {
      chat.Receive(outcome);
    }
  }
}
