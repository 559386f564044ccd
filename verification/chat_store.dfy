/** The relational tables the chat handlers read and write (`chat`,
    `chat_neighbor`, `chat_message` and the `chat_last_seen` column of
    `neighbor`), and the parts of their SQL that several handlers share. */
module ChatStore {
  import opened Wrappers
  import opened Wire
  import opened Seqs

  datatype Chat = Chat(id: int, startedBy: int, startedTs: int)

  datatype ChatNeighbor = ChatNeighbor(chatId: int, nid: int)

  datatype Message = Message(id: int, chatId: int, from: int, sendTs: int, body: Val, readBy: seq<int>)

  /** The tables, plus the next values of the `chat.id` and `chat_message.id`
      serial sequences. `lastSeen` maps each neighbour row's id to its
      nullable `chat_last_seen`. */
  datatype Db = Db(
    chats: seq<Chat>,
    members: seq<ChatNeighbor>,
    messages: seq<Message>,
    lastSeen: map<int, Option<int>>,
    nextChatId: int,
    nextMessageId: int)

  /** The serial sequences are ahead of every id in use, and chat ids start at 1. */
  predicate IdsFresh(db: Db)
  {
    && db.nextChatId > 0
    && (forall c :: c in db.chats ==> c.id < db.nextChatId)
    && (forall cn :: cn in db.members ==> cn.chatId < db.nextChatId)
    && (forall m :: m in db.messages ==> m.id < db.nextMessageId)
  }

  predicate IsParticipant(db: Db, chatId: int, nid: int)
  {
    ChatNeighbor(chatId, nid) in db.members
  }

  /** The rows of `chat_message` with the given `chat_id`, in table order. */
  function MessagesOf(db: Db, chatId: int): (ms: seq<Message>)
    ensures forall m :: m in ms <==> m in db.messages && m.chatId == chatId
  {
    Filter(db.messages, (m: Message) => m.chatId == chatId)
  }

  predicate HasMessage(db: Db, chatId: int)
  {
    exists m :: m in db.messages && m.chatId == chatId
  }

  /** `:me = any(read_by) or :me = from_neighbor`: the viewer has read the
      message, or wrote it. */
  predicate SeenBy(m: Message, me: int)
  {
    me in m.readBy || m.from == me
  }

  /** `max(send_ts)` over a non-empty set of messages. */
  function LatestSendTs(ms: seq<Message>): (ts: int)
    requires |ms| > 0
    ensures exists m :: m in ms && m.sendTs == ts
    ensures forall m :: m in ms ==> m.sendTs <= ts
  {
    if |ms| == 1 then ms[0].sendTs
    else
      var rest := LatestSendTs(ms[1..]);
      assert forall m :: m in ms ==> m == ms[0] || m in ms[1..];
      if ms[0].sendTs >= rest then ms[0].sendTs else rest
  }

  /** A chat the `get_chats` query returns for `me`: the inner joins need a
      participant row and a message, and `HAVING bool_or(neighbor_id = :me)`
      needs `me` among the participants. */
  predicate Listed(db: Db, c: Chat, me: int)
  {
    IsParticipant(db, c.id, me) && HasMessage(db, c.id)
  }

  /** The aggregated row of a listed chat as `me` sees it. */
  function Summarize(db: Db, c: Chat, me: int): (s: ChatSummary)
    requires HasMessage(db, c.id)
    ensures s.id == c.id && s.startedTs == c.startedTs
    ensures s.otherMembers.None? <==> forall n :: IsParticipant(db, c.id, n) ==> n == me
    ensures s.otherMembers.Some? ==> forall n :: n in s.otherMembers.value <==> n != me && IsParticipant(db, c.id, n)
    ensures s.read <==> forall m :: m in db.messages && m.chatId == c.id ==> SeenBy(m, me)
    ensures forall m :: m in db.messages && m.chatId == c.id ==> m.sendTs <= s.latestMessageTs
    ensures exists m :: m in db.messages && m.chatId == c.id && m.sendTs == s.latestMessageTs
  {
    var ms := MessagesOf(db, c.id);
    var others := set cn | cn in db.members && cn.chatId == c.id && cn.nid != me :: cn.nid;
    assert forall n :: n in others <==> n != me && IsParticipant(db, c.id, n) by {
      forall n ensures n in others <==> n != me && IsParticipant(db, c.id, n) {
        if n != me && IsParticipant(db, c.id, n) {
          assert ChatNeighbor(c.id, n) in db.members;
        }
      }
    }
    var read := forall m :: m in ms ==> SeenBy(m, me);
    var m0 :| m0 in db.messages && m0.chatId == c.id;
    assert m0 in ms;
    var otherMembers := if others == {} then None else Some(others);
    ChatSummary(c.id, c.startedTs, LatestSendTs(ms), otherMembers, read)
  }
}
