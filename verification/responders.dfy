/** The chat handlers (the `Responder` subclasses) as pure transitions of the
    registry and the database: each takes the state, the connection and the
    decoded request, and yields the new state and the reply, or the exception
    it raises. A handler that raises has written nothing: every exception is
    raised before the first write, or rolls its transaction back. */
module Responders {
  import opened Wrappers
  import opened Wire
  import opened Seqs
  import opened Sorting
  import opened Registry
  import opened ChatStore
  import opened PingTime

  datatype Responder =
    | IdentifyResponder
    | PingResponder
    | SendMessageResponder
    | GetChatsResponder
    | GetChatResponder
    | GetMessagesInChatResponder
    | MarkMessageReadResponder
    | NewMessageSender

  /** `identificationRequired()`: the base class answers false; identify and
      ping keep that default, every other handler overrides it with true. */
  predicate IdentificationRequired(r: Responder)
  {
    !(r.IdentifyResponder? || r.PingResponder?)
  }

  /** The state after a handler ran, and the reply it returns. */
  datatype Outcome = Outcome(reg: Store, db: Db, reply: Reply)

  /** `Util::validateJWT($token, false)`: the token's claims, or an empty map
      when the token is rejected. Its definition is not part of this model. */
  type Validator = Val -> map<string, Val>

  // ---------------------------------------------------------------- identify

  /** The `neighborId` claim when it is an integer; anything else is PHP null. */
  function ClaimedNid(claims: map<string, Val>): (nid: Option<int>)
    ensures nid.Some? <==> Field(claims, "neighborId").VInt?
  {
    match Field(claims, "neighborId")
    case VInt(n) => Some(n)
    case _ => None
  }

  /** `select chat_last_seen from neighbor where id = :me`: without a row the
      variable is never assigned and reads as null. */
  function LastSeenOf(db: Db, nid: Option<int>): (seen: Option<int>)
    ensures seen.Some? ==> nid.Some? && nid.value in db.lastSeen && db.lastSeen[nid.value] == seen
    ensures nid.Some? && nid.value in db.lastSeen ==> seen == db.lastSeen[nid.value]
  {
    if nid.Some? && nid.value in db.lastSeen then db.lastSeen[nid.value] else None
  }

  /** `IdentifyResponder::respond`. Any non-empty claims map identifies the
      connection; the error code inside it is not looked at. */
  function Identify(reg: Store, db: Db, conn: int, fields: map<string, Val>, validate: Validator): (o: Outcome)
    requires WellTyped(reg)
    ensures WellTyped(o.reg) && o.db == db
    ensures var claims := validate(Field(fields, "token"));
      && (o.reply.IdentifyOk? <==> |claims| > 0)
      && (|claims| == 0 ==> o.reply == IdentifyRejected && o.reg == reg)
    ensures var claims := validate(Field(fields, "token"));
      var nid := ClaimedNid(claims);
      |claims| > 0 ==>
        && Fwd(conn) in o.reg && o.reg[Fwd(conn)] == ForwardValue(nid)
        && ConnsOf(ArrayAt(o.reg, ReverseKey(nid))) == ConnsOf(ArrayAt(reg, ReverseKey(nid))) + [conn]
        && (forall k :: k in reg && k != Fwd(conn) && k != ReverseKey(nid) ==> k in o.reg && o.reg[k] == reg[k])
        && o.reply.lastSeen == LastSeenOf(db, nid)
  {
    var claims := validate(Field(fields, "token"));
    if |claims| > 0 then
      var nid := ClaimedNid(claims);
      Outcome(Register(reg, conn, nid), db, IdentifyOk(LastSeenOf(db, nid)))
    else
      Outcome(reg, db, IdentifyRejected)
  }

  // -------------------------------------------------------------------- ping

  /** `PingResponder::respond`: a pong carrying the current UTC time. The
      request's fields are not looked at. */
  function Ping(reg: Store, db: Db, now: DateTime): (o: Outcome)
    requires Valid(now)
    ensures o.reg == reg && o.db == db
    ensures o.reply.Pong? && Shaped(o.reply.timestamp)
    ensures Parse(o.reply.timestamp) == Some(now)
    ensures now.year < 10000 ==> |o.reply.timestamp| == 24
  {
    FormatParse(now);
    Outcome(reg, db, Pong(Format(now)))
  }

  // ------------------------------------------------------------ send_message

  /** The `chat_neighbor` rows of one chat. */
  function RowsOf(members: seq<ChatNeighbor>, chatId: int): (rows: seq<ChatNeighbor>)
    ensures forall cn :: cn in rows <==> cn in members && cn.chatId == chatId
  {
    Filter(members, InChat(chatId))
  }

  function InChat(chatId: int): ChatNeighbor -> bool
  {
    (cn: ChatNeighbor) => cn.chatId == chatId
  }

  /** A group the lookup query returns: `COUNT(*) = 2` and
      `bool_and(neighbor_id IN (:me, :them))`. */
  predicate PairChat(members: seq<ChatNeighbor>, chatId: int, me: int, them: int)
  {
    && |RowsOf(members, chatId)| == 2
    && forall cn :: cn in members && cn.chatId == chatId ==> cn.nid == me || cn.nid == them
  }

  /** The chat id of the last row of `rows` whose group qualifies: the loop
      over the result keeps the last row it sees. */
  function LastPairChat(members: seq<ChatNeighbor>, rows: seq<ChatNeighbor>, me: int, them: int): (r: Option<int>)
    ensures r.Some? ==> PairChat(members, r.value, me, them)
    ensures r.Some? ==> exists cn :: cn in rows && cn.chatId == r.value
    ensures r.None? ==> forall cn :: cn in rows ==> !PairChat(members, cn.chatId, me, them)
  {
    if |rows| == 0 then None
    else if PairChat(members, rows[|rows| - 1].chatId, me, them) then Some(rows[|rows| - 1].chatId)
    else
      assert forall cn :: cn in rows ==> cn in rows[..|rows| - 1] || cn == rows[|rows| - 1];
      LastPairChat(members, rows[..|rows| - 1], me, them)
  }

  /** The existing two-party chat between `me` and `them`, if the lookup finds one. */
  function FindChat(db: Db, me: int, them: int): (r: Option<int>)
    ensures r.Some? ==> PairChat(db.members, r.value, me, them)
    ensures r.None? <==> forall c :: !PairChat(db.members, c, me, them)
  {
    var r := LastPairChat(db.members, db.members, me, them);
    assert r.None? ==> forall c :: !PairChat(db.members, c, me, them) by {
      if r.None? {
        forall c ensures !PairChat(db.members, c, me, them) {
          var rows := RowsOf(db.members, c);
          if |rows| == 2 {
            assert rows[0] in rows;
          }
        }
      }
    }
    r
  }

  /** The chat a send goes to: the one found, unless the lookup found none or
      found id 0 (`$chatId == null` is a loose comparison). */
  predicate Reuses(found: Option<int>)
  {
    found.Some? && found.value != 0
  }

  /** `insert into chat` and the two `insert into chat_neighbor` rows. */
  function OpenChat(db: Db, me: int, them: int, now: int): (r: Db)
    ensures r.chats == db.chats + [Chat(db.nextChatId, me, now)]
    ensures r.members == db.members + [ChatNeighbor(db.nextChatId, me), ChatNeighbor(db.nextChatId, them)]
    ensures r.messages == db.messages && r.lastSeen == db.lastSeen
    ensures r.nextChatId == db.nextChatId + 1 && r.nextMessageId == db.nextMessageId
  {
    var id := db.nextChatId;
    db.(chats := db.chats + [Chat(id, me, now)],
        members := db.members + [ChatNeighbor(id, me), ChatNeighbor(id, them)],
        nextChatId := id + 1)
  }

  /** `SendMessageResponder::respond`. */
  function SendMessage(reg: Store, db: Db, conn: int, fields: map<string, Val>, now: int): (r: Result<Outcome, Fault>)
    requires WellTyped(reg)
    ensures r.Ok? <==> MyNeighborId(reg, conn).Ok? && Field(fields, "to").VInt?
    ensures MyNeighborId(reg, conn).Err? ==> r == Err(NoNeighborId(conn))
    ensures MyNeighborId(reg, conn).Ok? && !Field(fields, "to").VInt? ==> r == Err(BadParameter("to"))
    ensures r.Ok? ==>
      var me := MyNeighborId(reg, conn).value;
      var them := Field(fields, "to").i;
      var found := FindChat(db, me, them);
      var o := r.value;
      && o.reg == reg
      && o.reply.SendMessageResult?
      && o.reply.messageId == db.nextMessageId
      && o.db.messages == db.messages + [Message(o.reply.messageId, o.reply.chatId, me, now, Field(fields, "message"), [])]
      && o.db.lastSeen == db.lastSeen
      && (Reuses(found) ==>
            && o.reply.chatId == found.value && PairChat(db.members, o.reply.chatId, me, them)
            && o.db.chats == db.chats && o.db.members == db.members)
      && (!Reuses(found) ==>
            && o.reply.chatId == db.nextChatId
            && o.db.chats == db.chats + [Chat(o.reply.chatId, me, now)]
            && o.db.members == db.members + [ChatNeighbor(o.reply.chatId, me), ChatNeighbor(o.reply.chatId, them)])
  {
    var me :- MyNeighborId(reg, conn);
    var them :- IntParam(fields, "to");
    var found := FindChat(db, me, them);
    var db1 := if Reuses(found) then db else OpenChat(db, me, them, now);
    var chatId := if Reuses(found) then found.value else db.nextChatId;
    var messageId := db1.nextMessageId;
    var db2 := db1.(
      messages := db1.messages + [Message(messageId, chatId, me, now, Field(fields, "message"), [])],
      nextMessageId := messageId + 1);
    Ok(Outcome(reg, db2, SendMessageResult(chatId, messageId)))
  }

  // --------------------------------------------------------------- get_chats

  /** `order by c.started_ts`. */
  predicate StartedNoLater(a: Chat, b: Chat)
  {
    a.startedTs <= b.startedTs
  }

  lemma StartedNoLaterOrders()
    ensures TotalPreorder(StartedNoLater)
  {
  }

  /** The aggregated rows of the given listed chats, in the same order. */
  function SummarizeAll(db: Db, cs: seq<Chat>, me: int): (ss: seq<ChatSummary>)
    requires forall c :: c in cs ==> HasMessage(db, c.id)
    ensures |ss| == |cs|
    ensures forall i :: 0 <= i < |cs| ==> ss[i] == Summarize(db, cs[i], me)
    ensures forall s :: s in ss <==> exists c :: c in cs && s == Summarize(db, c, me)
  {
    var ss := seq(|cs|, i requires 0 <= i < |cs| => Summarize(db, cs[i], me));
    var f := (c: Chat) requires HasMessage(db, c.id) => Summarize(db, c, me);
    MapMembers(cs, ss, f);
    ss
  }

  /** The chats the `get_chats` query returns for `me`, in result order. */
  function ListedChats(db: Db, me: int): (cs: seq<Chat>)
    ensures forall c :: c in cs <==> c in db.chats && Listed(db, c, me)
    ensures forall i, j :: 0 <= i < j < |cs| ==> cs[i].startedTs <= cs[j].startedTs
    ensures multiset(cs) == multiset(Filter(db.chats, (c: Chat) => Listed(db, c, me)))
  {
    var listed := Filter(db.chats, (c: Chat) => Listed(db, c, me));
    StartedNoLaterOrders();
    var sorted := SortBy(listed, StartedNoLater);
    PermutationFacts(sorted, listed);
    sorted
  }

  /** `GetChatsResponder::respond`. */
  function GetChats(reg: Store, db: Db, conn: int): (r: Result<Outcome, Fault>)
    requires WellTyped(reg)
    ensures r.Ok? <==> MyNeighborId(reg, conn).Ok?
    ensures r.Err? ==> r.error == NoNeighborId(conn)
    ensures r.Ok? ==> r.value.reg == reg && r.value.db == db && r.value.reply.GetChatsResult?
    ensures r.Ok? ==>
      var me := MyNeighborId(reg, conn).value;
      var chats := r.value.reply.chats;
      && (forall s :: s in chats <==> exists c :: c in db.chats && Listed(db, c, me) && s == Summarize(db, c, me))
      && (forall i, j :: 0 <= i < j < |chats| ==> chats[i].startedTs <= chats[j].startedTs)
    ensures r.Ok? ==>
      var me := MyNeighborId(reg, conn).value;
      var cs := ListedChats(db, me);
      var chats := r.value.reply.chats;
      |chats| == |cs| && forall i :: 0 <= i < |cs| ==> Listed(db, cs[i], me) && chats[i] == Summarize(db, cs[i], me)
  {
    var me :- MyNeighborId(reg, conn);
    var cs := ListedChats(db, me);
    var chats := SummarizeAll(db, cs, me);
    Ok(Outcome(reg, db, GetChatsResult(chats)))
  }

  // ---------------------------------------------------------------- get_chat

  /** `GetChatResponder::respond`: the chat's row when the viewer takes part
      in it and it has at least one message. */
  function GetChat(reg: Store, db: Db, conn: int, fields: map<string, Val>): (r: Result<Outcome, Fault>)
    requires WellTyped(reg)
    ensures r.Ok? <==> MyNeighborId(reg, conn).Ok? && Field(fields, "chat_id").VInt?
    ensures MyNeighborId(reg, conn).Err? ==> r == Err(NoNeighborId(conn))
    ensures MyNeighborId(reg, conn).Ok? && !Field(fields, "chat_id").VInt? ==> r == Err(BadParameter("chat_id"))
    ensures r.Ok? ==> r.value.reg == reg && r.value.db == db
    ensures r.Ok? ==>
      var me := MyNeighborId(reg, conn).value;
      var chatId := Field(fields, "chat_id").i;
      var reply := r.value.reply;
      && (reply.GetChatFound? || reply == GetChatNotFound(chatId))
      && (reply.GetChatFound? <==> exists c :: c in db.chats && c.id == chatId && Listed(db, c, me))
      && (reply.GetChatFound? ==>
            exists c :: c in db.chats && c.id == chatId && Listed(db, c, me) && reply.chat == Summarize(db, c, me))
  {
    var me :- MyNeighborId(reg, conn);
    var chatId :- IntParam(fields, "chat_id");
    var hits := Filter(db.chats, (c: Chat) => c.id == chatId && Listed(db, c, me));
    if |hits| == 0 then
      Ok(Outcome(reg, db, GetChatNotFound(chatId)))
    else
      assert hits[0] in hits;
      Ok(Outcome(reg, db, GetChatFound(Summarize(db, hits[0], me))))
  }

  // ------------------------------------------------------------ get_messages

  /** A row of the `get_messages` query with `sent_by_me` added: the viewer's
      own messages count as read. */
  function ListingView(m: Message, me: int): (v: MessageView)
    ensures v.id == m.id && v.chatId == None && v.from == m.from && v.sendTs == m.sendTs && v.body == m.body
    ensures v.read <==> me in m.readBy || m.from == me
    ensures v.sentByMe <==> m.from == me
    ensures v.sentByMe ==> v.read
  {
    MessageView(m.id, None, m.from, m.sendTs, m.body, SeenBy(m, me), m.from == me)
  }

  /** `order by send_ts desc`. */
  predicate SentNoEarlier(a: Message, b: Message)
  {
    a.sendTs >= b.sendTs
  }

  lemma SentNoEarlierOrders()
    ensures TotalPreorder(SentNoEarlier)
  {
  }

  /** The listing rows of `ms`, in the same order. */
  function ListingViews(ms: seq<Message>, me: int): (vs: seq<MessageView>)
    ensures |vs| == |ms|
    ensures forall i :: 0 <= i < |ms| ==> vs[i] == ListingView(ms[i], me)
    ensures forall v :: v in vs <==> exists m :: m in ms && v == ListingView(m, me)
  {
    var vs := seq(|ms|, i requires 0 <= i < |ms| => ListingView(ms[i], me));
    assert forall v :: v in vs <==> exists m :: m in ms && v == ListingView(m, me) by {
      forall v ensures v in vs <==> exists m :: m in ms && v == ListingView(m, me) {
        if exists m :: m in ms && v == ListingView(m, me) {
          var m :| m in ms && v == ListingView(m, me);
          var i :| 0 <= i < |ms| && ms[i] == m;
          assert vs[i] == v;
        }
      }
    }
    vs
  }

  /** The messages of a chat, newest first. */
  function NewestFirst(db: Db, chatId: int): (ms: seq<Message>)
    ensures multiset(ms) == multiset(MessagesOf(db, chatId))
    ensures forall m :: m in ms <==> m in db.messages && m.chatId == chatId
    ensures forall i, j :: 0 <= i < j < |ms| ==> ms[i].sendTs >= ms[j].sendTs
  {
    SentNoEarlierOrders();
    var ms := SortBy(MessagesOf(db, chatId), SentNoEarlier);
    PermutationFacts(ms, MessagesOf(db, chatId));
    ms
  }

  /** `GetMessagesInChatResponder::respond`. There is no participant check. */
  function GetMessages(reg: Store, db: Db, conn: int, fields: map<string, Val>): (r: Result<Outcome, Fault>)
    requires WellTyped(reg)
    ensures r.Ok? <==> MyNeighborId(reg, conn).Ok? && Field(fields, "chat_id").VInt?
    ensures MyNeighborId(reg, conn).Err? ==> r == Err(NoNeighborId(conn))
    ensures MyNeighborId(reg, conn).Ok? && !Field(fields, "chat_id").VInt? ==> r == Err(BadParameter("chat_id"))
    ensures r.Ok? ==> r.value.reg == reg && r.value.db == db
    ensures r.Ok? ==>
      var me := MyNeighborId(reg, conn).value;
      var chatId := Field(fields, "chat_id").i;
      var reply := r.value.reply;
      && reply.GetMessagesResult? && reply.chatId == chatId
      && |reply.messages| == |MessagesOf(db, chatId)|
      && (forall v :: v in reply.messages <==>
            exists m :: m in db.messages && m.chatId == chatId && v == ListingView(m, me))
      && (forall i, j :: 0 <= i < j < |reply.messages| ==> reply.messages[i].sendTs >= reply.messages[j].sendTs)
  {
    var me :- MyNeighborId(reg, conn);
    var chatId :- IntParam(fields, "chat_id");
    var ms := NewestFirst(db, chatId);
    var views := ListingViews(ms, me);
    PermutationFacts(ms, MessagesOf(db, chatId));
    Ok(Outcome(reg, db, GetMessagesResult(chatId, views)))
  }

  // ------------------------------------------------------- mark_message_read

  /** The update on one row: `array_append(read_by, :me)` where `id = :messageId`
      and `NOT read_by @> ARRAY[:me]`. */
  function MarkRow(m: Message, id: int, me: int): (r: Message)
    ensures r.(readBy := m.readBy) == m
    ensures m.id != id || me in m.readBy ==> r == m
    ensures m.id == id && me !in m.readBy ==> r.readBy == m.readBy + [me]
    ensures m.id == id ==> me in r.readBy
  {
    if m.id == id && me !in m.readBy then m.(readBy := m.readBy + [me]) else m
  }

  /** `MarkMessageReadResponder::respond`. */
  function MarkMessageRead(reg: Store, db: Db, conn: int, fields: map<string, Val>): (r: Result<Outcome, Fault>)
    requires WellTyped(reg)
    ensures r.Ok? <==> MyNeighborId(reg, conn).Ok? && Field(fields, "id").VInt?
    ensures MyNeighborId(reg, conn).Err? ==> r == Err(NoNeighborId(conn))
    ensures MyNeighborId(reg, conn).Ok? && !Field(fields, "id").VInt? ==> r == Err(BadParameter("id"))
    ensures r.Ok? ==>
      var me := MyNeighborId(reg, conn).value;
      var id := Field(fields, "id").i;
      var o := r.value;
      && o.reg == reg && o.reply == MarkMessageReadResult(id)
      && o.db == db.(messages := o.db.messages)
      && |o.db.messages| == |db.messages|
      && (forall i :: 0 <= i < |db.messages| ==> o.db.messages[i] == MarkRow(db.messages[i], id, me))
  {
    var me :- MyNeighborId(reg, conn);
    var id :- IntParam(fields, "id");
    var ms := seq(|db.messages|, i requires 0 <= i < |db.messages| => MarkRow(db.messages[i], id, me));
    Ok(Outcome(reg, db.(messages := ms), MarkMessageReadResult(id)))
  }

  // ------------------------------------------------------------- new_message

  /** A row of the `new_message` query with `sent_by_me` added: unlike the
      listing, only `read_by` decides `read`. */
  function PushedView(m: Message, me: int): (v: MessageView)
    ensures v.id == m.id && v.chatId == Some(m.chatId) && v.from == m.from && v.sendTs == m.sendTs && v.body == m.body
    ensures v.read <==> me in m.readBy
    ensures v.sentByMe <==> m.from == me
  {
    MessageView(m.id, Some(m.chatId), m.from, m.sendTs, m.body, me in m.readBy, m.from == me)
  }

  /** `NewMessageSender::respond`. The viewer is looked up before the `try`,
      so a connection without a usable neighbour id raises; a bad `msg_id` is
      a failed query, which the `try` turns into a `result:false` reply. */
  function NewMessage(reg: Store, db: Db, conn: int, fields: map<string, Val>): (r: Result<Outcome, Fault>)
    requires WellTyped(reg)
    ensures r.Ok? <==> MyNeighborId(reg, conn).Ok?
    ensures r.Err? ==> r.error == NoNeighborId(conn)
    ensures r.Ok? ==> r.value.reg == reg && r.value.db == db
    ensures r.Ok? ==>
      var me := MyNeighborId(reg, conn).value;
      var msgId := Field(fields, "msg_id");
      var reply := r.value.reply;
      && (reply.NewMessageFound? || reply == NewMessageMissing(msgId))
      && (reply.NewMessageFound? <==> msgId.VInt? && exists m :: m in db.messages && m.id == msgId.i)
      && (reply.NewMessageFound? ==>
            exists m :: m in db.messages && m.id == msgId.i && reply.chatId == m.chatId && reply.message == PushedView(m, me))
  {
    var me :- MyNeighborId(reg, conn);
    var msgId := Field(fields, "msg_id");
    if !msgId.VInt? then Ok(Outcome(reg, db, NewMessageMissing(msgId)))
    else
      var hits := Filter(db.messages, (m: Message) => m.id == msgId.i);
      if |hits| == 0 then Ok(Outcome(reg, db, NewMessageMissing(msgId)))
      else
        assert hits[0] in hits;
        Ok(Outcome(reg, db, NewMessageFound(hits[0].chatId, PushedView(hits[0], me))))
  }
}
