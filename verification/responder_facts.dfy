/** Properties of the chat handlers that relate several calls, or show a
    behaviour of the queries on a concrete database. */
module ResponderFacts {
  import opened Wrappers
  import opened Wire
  import opened Seqs
  import opened Registry
  import opened ChatStore
  import opened Responders

  lemma {:induction false} LastPairChatSymmetric(members: seq<ChatNeighbor>, rows: seq<ChatNeighbor>, me: int, them: int)
    ensures LastPairChat(members, rows, me, them) == LastPairChat(members, rows, them, me)
  {
    if |rows| > 0 {
      var c := rows[|rows| - 1].chatId;
      assert PairChat(members, c, me, them) == PairChat(members, c, them, me);
      LastPairChatSymmetric(members, rows[..|rows| - 1], me, them);
    }
  }

  /** The chat lookup does not depend on which side sends. */
  lemma FindChatSymmetric(db: Db, me: int, them: int)
    ensures FindChat(db, me, them) == FindChat(db, them, me)
  {
    LastPairChatSymmetric(db.members, db.members, me, them);
  }

  /** The rows of a chat id no existing row uses, after two rows for it are appended. */
  lemma RowsOfFresh(members: seq<ChatNeighbor>, a: ChatNeighbor, b: ChatNeighbor, c: int)
    requires forall cn :: cn in members ==> cn.chatId != c
    requires a.chatId == c && b.chatId == c
    ensures RowsOf(members + [a, b], c) == [a, b]
  {
    var p := InChat(c);
    assert Filter(members, p) == [];
    var s1 := members + [a];
    assert s1[..|s1| - 1] == members;
    assert p(a);
    assert Filter(s1, p) == Filter(members, p) + [a];
    var s2 := members + [a, b];
    assert s2[..|s2| - 1] == s1;
    assert s2[|s2| - 1] == b;
    assert p(b);
    assert Filter(s2, p) == Filter(s1, p) + [b];
  }

  /** After a send, the lookup finds the chat the message went to, from either
      side: a reply in the other direction reaches the same conversation. */
  lemma SendThenLookupFindsChat(reg: Store, db: Db, conn: int, fields: map<string, Val>, now: int)
    requires WellTyped(reg) && IdsFresh(db)
    requires SendMessage(reg, db, conn, fields, now).Ok?
    ensures var o := SendMessage(reg, db, conn, fields, now).value;
      var me := MyNeighborId(reg, conn).value;
      var them := Field(fields, "to").i;
      && FindChat(o.db, me, them) == Some(o.reply.chatId)
      && FindChat(o.db, them, me) == Some(o.reply.chatId)
  {
    var o := SendMessage(reg, db, conn, fields, now).value;
    var me := MyNeighborId(reg, conn).value;
    var them := Field(fields, "to").i;
    var c := o.reply.chatId;
    if Reuses(FindChat(db, me, them)) {
      assert o.db.members == db.members;
      FindChatSymmetric(db, me, them);
    } else {
      var a := ChatNeighbor(c, me);
      var b := ChatNeighbor(c, them);
      assert o.db.members == db.members + [a, b];
      RowsOfFresh(db.members, a, b, c);
      var ms := o.db.members;
      assert ms[|ms| - 1] == b;
      assert PairChat(ms, c, me, them);
      assert PairChat(ms, c, them, me);
    }
  }

  /** A send never touches another chat's participant rows, and creates at
      most one chat. */
  lemma SendCreatesAtMostOneChat(reg: Store, db: Db, conn: int, fields: map<string, Val>, now: int)
    requires WellTyped(reg)
    requires SendMessage(reg, db, conn, fields, now).Ok?
    ensures var o := SendMessage(reg, db, conn, fields, now).value;
      && |db.chats| <= |o.db.chats| <= |db.chats| + 1
      && o.db.chats[..|db.chats|] == db.chats
      && o.db.members[..|db.members|] == db.members
      && |o.db.messages| == |db.messages| + 1
  {
  }

  /** The lookup lets a chat someone opened with themselves capture their
      later sends to another neighbour: chat 1 has the rows (1, 5) and (1, 5),
      both in {5, 9}, so neighbour 5's message to neighbour 9 goes into it
      although 9 takes no part in it. */
  lemma SelfChatCapturesSend()
    ensures var reg := map[Fwd(3) := Int(5)];
      var db := Db([Chat(1, 5, 0)], [ChatNeighbor(1, 5), ChatNeighbor(1, 5)], [], map[], 2, 1);
      var fields := map["to" := VInt(9), "message" := VStr("hi")];
      var r := SendMessage(reg, db, 3, fields, 10);
      && r.Ok? && r.value.reply == SendMessageResult(1, 1)
      && !IsParticipant(r.value.db, 1, 9)
  {
    var reg := map[Fwd(3) := Int(5)];
    var db := Db([Chat(1, 5, 0)], [ChatNeighbor(1, 5), ChatNeighbor(1, 5)], [], map[], 2, 1);
    var rows := db.members;
    assert rows[..1] == [ChatNeighbor(1, 5)];
    assert rows[..1][..0] == [];
    assert RowsOf(rows, 1) == rows;
    assert PairChat(rows, 1, 5, 9);
    assert LastPairChat(rows, rows, 5, 9) == Some(1);
  }

  /** Marking a message read a second time changes nothing. */
  lemma MarkMessageReadIdempotent(reg: Store, db: Db, conn: int, fields: map<string, Val>)
    requires WellTyped(reg)
    requires MarkMessageRead(reg, db, conn, fields).Ok?
    ensures var o := MarkMessageRead(reg, db, conn, fields).value;
      MarkMessageRead(reg, o.db, conn, fields) == Ok(o)
  {
    var o := MarkMessageRead(reg, db, conn, fields).value;
    var o2 := MarkMessageRead(reg, o.db, conn, fields).value;
    assert o2.db.messages == o.db.messages;
  }

  /** However often a message is marked read by `me`, `me` is in its
      `read_by` exactly once, provided it was not there before. */
  lemma MarkRowOnce(m: Message, id: int, me: int)
    requires m.id == id && Count(m.readBy, me) == 0
    ensures Count(MarkRow(m, id, me).readBy, me) == 1
    ensures MarkRow(MarkRow(m, id, me), id, me) == MarkRow(m, id, me)
  {
    assert multiset(m.readBy + [me]) == multiset(m.readBy) + multiset{me};
  }

  /** A chat `get_chat` finds is one of the chats `get_chats` lists. */
  lemma GetChatListed(reg: Store, db: Db, conn: int, fields: map<string, Val>)
    requires WellTyped(reg)
    requires GetChat(reg, db, conn, fields).Ok? && GetChat(reg, db, conn, fields).value.reply.GetChatFound?
    ensures GetChats(reg, db, conn).Ok?
    ensures GetChat(reg, db, conn, fields).value.reply.chat in GetChats(reg, db, conn).value.reply.chats
  {
  }

  /** Conversely, every chat `get_chats` lists is found by `get_chat`, with
      the same row when chat ids are unique. */
  lemma ListedChatFound(reg: Store, db: Db, conn: int, s: ChatSummary, fields: map<string, Val>)
    requires WellTyped(reg)
    requires GetChats(reg, db, conn).Ok? && s in GetChats(reg, db, conn).value.reply.chats
    requires Field(fields, "chat_id") == VInt(s.id)
    ensures GetChat(reg, db, conn, fields).Ok?
    ensures GetChat(reg, db, conn, fields).value.reply.GetChatFound?
    ensures (forall c1, c2 :: c1 in db.chats && c2 in db.chats && c1.id == c2.id ==> c1 == c2) ==>
      GetChat(reg, db, conn, fields).value.reply.chat == s
  {
  }

  /** `get_messages` has no participant check: neighbour 9 reads chat 1,
      which only neighbours 5 and 6 take part in. */
  lemma GetMessagesIgnoresMembership()
    ensures var reg := map[Fwd(4) := Int(9)];
      var m := Message(7, 1, 5, 100, VStr("hello"), []);
      var db := Db([Chat(1, 5, 0)], [ChatNeighbor(1, 5), ChatNeighbor(1, 6)], [m], map[], 2, 8);
      var r := GetMessages(reg, db, 4, map["chat_id" := VInt(1)]);
      && !IsParticipant(db, 1, 9)
      && r.Ok? && r.value.reply.messages == [ListingView(m, 9)]
  {
    var m := Message(7, 1, 5, 100, VStr("hello"), []);
    var db := Db([Chat(1, 5, 0)], [ChatNeighbor(1, 5), ChatNeighbor(1, 6)], [m], map[], 2, 8);
    assert MessagesOf(db, 1) == [m] by {
      assert db.messages[..0] == [];
    }
    var ms := NewestFirst(db, 1);
    assert multiset(ms) == multiset{m};
    assert |ms| == 1;
    assert ms[0] in multiset(ms);
  }

  /** A sender's own message: the listing reports it read, the push to the
      sender's other connections reports it unread until the sender marks it. */
  lemma OwnMessageReadOnlyInListing(m: Message, me: int)
    requires m.from == me && me !in m.readBy
    ensures ListingView(m, me).read && ListingView(m, me).sentByMe
    ensures !PushedView(m, me).read && PushedView(m, me).sentByMe
  {
  }
}
