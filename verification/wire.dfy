/** The websocket wire format: decoded request envelopes, the exceptions a
    handler can raise, and the reply envelopes the gateway sends back. */
module Wire {
  import opened Wrappers

  /** A scalar JSON value as `json_decode(..., true)` yields it. */
  datatype Val = VNull | VBool(b: bool) | VInt(i: int) | VStr(s: string)

  /** A decoded inbound text frame: either a JSON object or anything else
      (invalid JSON, a list, a bare scalar). */
  datatype Payload = NotAnObject | Object(fields: map<string, Val>)

  /** `$request[name]`: an absent key reads as null. */
  function Field(fields: map<string, Val>, name: string): Val
  {
    if name in fields then fields[name] else VNull
  }

  /** `isset($request[name])`: present and not null. */
  predicate IsSet(fields: map<string, Val>, name: string)
  {
    name in fields && fields[name] != VNull
  }

  /** The exceptions a handler can raise. */
  datatype Fault =
    | NoNeighborId(conn: int)   // Responder::getMyNeighborId found no usable id
    | BadParameter(name: string) // the database rejected a non-integer id parameter

  /** An integer query parameter taken from the request. Anything other than a
      JSON integer makes the query fail. */
  function IntParam(fields: map<string, Val>, name: string): (r: Result<int, Fault>)
    ensures r.Ok? <==> Field(fields, name).VInt?
    ensures r.Ok? ==> r.value == Field(fields, name).i
    ensures r.Err? ==> r.error == BadParameter(name)
  {
    match Field(fields, name)
    case VInt(i) => Ok(i)
    case _ => Err(BadParameter(name))
  }

  /** One `chat_message` row as a particular viewer sees it. `chatId` is
      present only where the query selects the `chat_id` column. */
  datatype MessageView = MessageView(
    id: int,
    chatId: Option<int>,
    from: int,
    sendTs: int,
    body: Val,
    read: bool,
    sentByMe: bool)

  /** One row of the `get_chats` / `get_chat` query. `otherMembers` is None
      for SQL NULL: `array_agg` over no rows, when the viewer is the chat's
      only participant. */
  datatype ChatSummary = ChatSummary(
    id: int,
    startedTs: int,
    latestMessageTs: int,
    otherMembers: Option<set<int>>,
    read: bool)

  /** Every reply envelope the gateway can send. */
  datatype Reply =
    | Unsupported(neighborId: int)
    | Error(messageUuid: Val, fault: Fault)
    | Pong(timestamp: string)
    | IdentifyOk(lastSeen: Option<int>)
    | IdentifyRejected
    | SendMessageResult(chatId: int, messageId: int)
    | GetChatsResult(chats: seq<ChatSummary>)
    | GetChatFound(chat: ChatSummary)
    | GetChatNotFound(chatId: int)
    | GetMessagesResult(chatId: int, messages: seq<MessageView>)
    | MarkMessageReadResult(id: int)
    | NewMessageFound(chatId: int, message: MessageView)
    | NewMessageMissing(requestedId: Val)

  /** The envelope's `type` field. */
  function TypeOf(r: Reply): string
  {
    match r
    case Unsupported(_) => "unsupported"
    case Error(_, _) => "error"
    case Pong(_) => "pong"
    case IdentifyOk(_) => "identify_result"
    case IdentifyRejected => "identify_result"
    case SendMessageResult(_, _) => "send_message_result"
    case GetChatsResult(_) => "get_chats_result"
    case GetChatFound(_) => "get_chat_result"
    case GetChatNotFound(_) => "get_chat_result"
    case GetMessagesResult(_, _) => "get_messages_result"
    case MarkMessageReadResult(_) => "mark_message_read_result"
    case NewMessageFound(_, _) => "new_message_result"
    case NewMessageMissing(_) => "new_message_result"
  }

  /** The envelope's `result` field, when it has one. */
  function ResultFlag(r: Reply): Option<bool>
  {
    match r
    case Unsupported(_) => None
    case Error(_, _) => None
    case Pong(_) => None
    case IdentifyRejected => Some(false)
    case GetChatNotFound(_) => Some(false)
    case NewMessageMissing(_) => Some(false)
    case _ => Some(true)
  }
}
