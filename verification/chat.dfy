/** The chat panel's client state: the message list, the input box and the
    loading flag, and the transitions of `handleSubmit` around a call to the
    chat-send server action. */
module ChatClient {
  import opened Wrappers
  import opened Text
  import opened Types
  import opened Data
  import opened Actions

  const ApologyText := "Sorry, I couldn't get a response. Please try again."

  datatype ChatView = ChatView(messages: seq<ChatMessage>, input: string, isLoading: bool)

  /** The mount effect: the note's stored log replaces the list. */
  function LoadMessages(v: ChatView, s: Store, noteId: string): (r: ChatView)
    ensures r.messages == GetChatMessages(s, noteId)
    ensures noteId !in s.chats ==> r.messages == []
    ensures r.input == v.input && r.isLoading == v.isLoading
  {
    v.(messages := GetChatMessages(s, noteId))
  }

  /** The synchronous half of an accepted submit: the client-built user
      message is appended, the input cleared, loading set. */
  function BeginSubmit(v: ChatView, clientMsgId: string): (r: ChatView)
    ensures r.messages == v.messages + [ChatMessage(clientMsgId, FromUser, v.input)]
    ensures r.input == "" && r.isLoading
  {
    ChatView(v.messages + [ChatMessage(clientMsgId, FromUser, v.input)], "", true)
  }

  /** The completion: the second element of the server's reply is appended,
      or the apology when the call rejected; loading ends either way. A reply
      shorter than two elements would make `[, assistantMessage]` bind
      `undefined` and append it, so the model asks for two. */
  function FinishSubmit(v: ChatView, reply: Result<seq<ChatMessage>, string>, errorId: string): (r: ChatView)
    requires reply.Success? ==> |reply.value| >= 2
    ensures |r.messages| == |v.messages| + 1 && r.messages[..|v.messages|] == v.messages
    ensures reply.Success? ==> r.messages[|v.messages|] == reply.value[1]
    ensures reply.Failure? ==> r.messages[|v.messages|] == ChatMessage(errorId, FromAssistant, ApologyText)
    ensures r.input == v.input && !r.isLoading
  {
    match reply
    case Success(pair) => ChatView(v.messages + [pair[1]], v.input, false)
    case Failure(_) => ChatView(v.messages + [ChatMessage(errorId, FromAssistant, ApologyText)], v.input, false)
  }

  /** The client refuses exactly what the server would answer with `[]`, so
      an accepted submit never destructures an empty reply. */
  lemma ClientGuardMatchesServer(
    s: Store, noteId: string, userId: string, input: string,
    userMsgId: string, assistantMsgId: string,
    answer: (string, string) -> Result<string, string>)
    requires !IsBlank(input)
    ensures var reply := SendChatMessageAction(s, noteId, userId, input, userMsgId, assistantMsgId, answer).1;
      reply.Success? ==> |reply.value| == 2
  {
    ChatReplyShape(s, noteId, userId, input, userMsgId, assistantMsgId, answer);
  }

  /** The client side of an accepted submit, given the server's reply: the
      optimistic append followed by the completion. */
  function SubmitView(v: ChatView, clientMsgId: string, reply: Result<seq<ChatMessage>, string>, errorId: string): (r: ChatView)
    requires reply.Success? ==> |reply.value| >= 2
    ensures |r.messages| == |v.messages| + 2
    ensures r.messages[..|v.messages|] == v.messages
    ensures r.messages[|v.messages|] == ChatMessage(clientMsgId, FromUser, v.input)
    ensures r.input == "" && !r.isLoading
    ensures reply.Success? ==> r.messages[|v.messages| + 1] == reply.value[1]
    ensures reply.Failure? ==> r.messages[|v.messages| + 1] == ChatMessage(errorId, FromAssistant, ApologyText)
  {
    var pending := BeginSubmit(v, clientMsgId);
    var done := FinishSubmit(pending, reply, errorId);
    assert done.messages[..|pending.messages|] == pending.messages;
    assert done.messages[..|v.messages|] == v.messages by {
      assert done.messages[..|v.messages|] == done.messages[..|pending.messages|][..|v.messages|];
    }
    done
  }

  /** `handleSubmit` together with the server action it awaits. Returns the
      new client view and the new store. `clientMsgId` and `errorId` stand for
      the client's `Date.now()` ids, `userMsgId` and `assistantMsgId` for the
      server's. */
  function HandleSubmit(
    v: ChatView, user: Option<User>, s: Store, noteId: string,
    clientMsgId: string, userMsgId: string, assistantMsgId: string, errorId: string,
    answer: (string, string) -> Result<string, string>): (r: (ChatView, Store))
    ensures IsBlank(v.input) || user.None? ==> r == (v, s)
    ensures !IsBlank(v.input) && user.Some? ==>
      var server := SendChatMessageAction(s, noteId, user.value.id, v.input, userMsgId, assistantMsgId, answer);
      && r.1 == server.0
      && |r.0.messages| == |v.messages| + 2
      && r.0.messages[..|v.messages|] == v.messages
      && r.0.messages[|v.messages|] == ChatMessage(clientMsgId, FromUser, v.input)
      && r.0.input == "" && !r.0.isLoading
      && (server.1.Success? ==> r.0.messages[|v.messages| + 1] == server.1.value[1])
      && (server.1.Failure? ==> r.0.messages[|v.messages| + 1] == ChatMessage(errorId, FromAssistant, ApologyText))
  {
    TrimEmptyIffBlank(v.input);
    if Trim(v.input) == "" || user.None? then
      (v, s)
    else
      var server := SendChatMessageAction(s, noteId, user.value.id, v.input, userMsgId, assistantMsgId, answer);
      ClientGuardMatchesServer(s, noteId, user.value.id, v.input, userMsgId, assistantMsgId, answer);
      (SubmitView(v, clientMsgId, server.1, errorId), server.0)
  }

  /** After a successful round trip the message the client shows last is the
      assistant message the server stored last for that note. */
  lemma ClientShowsStoredAnswer(
    v: ChatView, user: Option<User>, s: Store, noteId: string,
    clientMsgId: string, userMsgId: string, assistantMsgId: string, errorId: string,
    answer: (string, string) -> Result<string, string>)
    requires !IsBlank(v.input) && user.Some?
    requires SendChatMessageAction(s, noteId, user.value.id, v.input, userMsgId, assistantMsgId, answer).1.Success?
    ensures var r := HandleSubmit(v, user, s, noteId, clientMsgId, userMsgId, assistantMsgId, errorId, answer);
      var log := GetChatMessages(r.1, noteId);
      |log| >= 2 && r.0.messages[|r.0.messages| - 1] == log[|log| - 1]
      && log[|log| - 1].role == FromAssistant
  {
    ChatReplyShape(s, noteId, user.value.id, v.input, userMsgId, assistantMsgId, answer);
  }
}
