/** The websocket gateway (`ChatServer.php`): the responder table, the
    handling of one inbound frame, the receive loop of a connection with the
    disconnect block after it, and one step of the `new_chat_message`
    listener. The set of live connections, the clocks and the token
    validator are inputs. */
module ChatServer {
  import opened Wrappers
  import opened Wire
  import opened Seqs
  import opened Registry
  import opened ChatStore
  import opened PingTime
  import opened Responders

  /** `$responderMap`: the message types clients may send. */
  const ResponderMap: map<string, Responder> := map[
    "identify" := IdentifyResponder,
    "ping" := PingResponder,
    "send_message" := SendMessageResponder,
    "get_chats" := GetChatsResponder,
    "get_chat" := GetChatResponder,
    "get_messages" := GetMessagesInChatResponder,
    "mark_message_read" := MarkMessageReadResponder]

  /** `$responderMap[$type] ?? null`: only a string equal to one of the
      seven names finds a handler, and the push handler is never one. */
  function LookupResponder(t: Val): (r: Option<Responder>)
    ensures r.Some? <==> t.VStr? && t.s in ResponderMap
    ensures r.Some? ==> r.value == ResponderMap[t.s]
    ensures r.Some? ==> !r.value.NewMessageSender?
  {
    if t.VStr? && t.s in ResponderMap then Some(ResponderMap[t.s]) else None
  }

  /** The clock readings a frame is handled at: PHP's UTC `DateTime` and the
      database's `now()`. */
  datatype Clock = Clock(utc: DateTime, dbNow: int)

  /** `$responder->respond($client, $pool, $dataArray)`. */
  function Respond(h: Responder, reg: Store, db: Db, conn: int, fields: map<string, Val>, validate: Validator, at: Clock): (r: Result<Outcome, Fault>)
    requires WellTyped(reg) && Valid(at.utc)
    ensures r.Ok? ==> WellTyped(r.value.reg)
    ensures r.Ok? && !h.IdentifyResponder? ==> r.value.reg == reg
    ensures r.Ok? && IdsFresh(db) ==> IdsFresh(r.value.db)
    ensures r.Err? ==> IdentificationRequired(h)
    ensures r.Err? && r.error.NoNeighborId? ==> r.error.conn == conn && MyNeighborId(reg, conn).Err?
  {
    match h
    case IdentifyResponder => Ok(Identify(reg, db, conn, fields, validate))
    case PingResponder => Ok(Ping(reg, db, at.utc))
    case SendMessageResponder => SendMessage(reg, db, conn, fields, at.dbNow)
    case GetChatsResponder => GetChats(reg, db, conn)
    case GetChatResponder => GetChat(reg, db, conn, fields)
    case GetMessagesInChatResponder => GetMessages(reg, db, conn, fields)
    case MarkMessageReadResponder =>
      var r := MarkMessageRead(reg, db, conn, fields);
      assert r.Ok? && IdsFresh(db) ==> IdsFresh(r.value.db) by {
        if r.Ok? && IdsFresh(db) {
          var ms := r.value.db.messages;
          assert forall i :: 0 <= i < |ms| ==> ms[i].id == db.messages[i].id;
          assert forall m :: m in ms ==> m.id < db.nextMessageId by {
            forall m | m in ms ensures m.id < db.nextMessageId {
              var i :| 0 <= i < |ms| && ms[i] == m;
              assert db.messages[i] in db.messages;
            }
          }
        }
      }
      r
    case NewMessageSender => NewMessage(reg, db, conn, fields)
  }

  /** `isset($dataArray['type'])`. */
  predicate HasType(p: Payload)
  {
    p.Object? && IsSet(p.fields, "type")
  }

  /** `! $responder->identificationRequired() || $this->isIdentified($client)`. */
  predicate MayRun(h: Responder, reg: Store, conn: int)
  {
    !IdentificationRequired(h) || IsIdentified(reg, conn)
  }

  /** One pass of the receive loop's body: the reply sent for the frame (none
      when it has no `type`) and the state after it. */
  function HandleEnvelope(reg: Store, db: Db, conn: int, p: Payload, validate: Validator, at: Clock): (r: Option<Outcome>)
    requires WellTyped(reg) && Valid(at.utc)
    ensures r.None? <==> !HasType(p)
    ensures r.Some? ==> WellTyped(r.value.reg)
    ensures r.Some? && IdsFresh(db) ==> IdsFresh(r.value.db)
    ensures r.Some? && LookupResponder(p.fields["type"]).None? ==>
      r.value == Outcome(reg, db, Unsupported(NidForConn(reg, conn)))
    ensures r.Some? && LookupResponder(p.fields["type"]).Some? && !MayRun(LookupResponder(p.fields["type"]).value, reg, conn) ==>
      r.value == Outcome(reg, db, Unsupported(0))
    ensures r.Some? && LookupResponder(p.fields["type"]).Some? && MayRun(LookupResponder(p.fields["type"]).value, reg, conn) ==>
      var res := Respond(LookupResponder(p.fields["type"]).value, reg, db, conn, p.fields, validate, at);
      && (res.Ok? ==> r.value == res.value)
      && (res.Err? ==> r.value == Outcome(reg, db, Error(Field(p.fields, "message_uuid"), res.error)))
    ensures r.Some? && (r.value.reply.Unsupported? || r.value.reply.Error?) ==> r.value.reg == reg && r.value.db == db
  {
    if !HasType(p) then None
    else
      var h := LookupResponder(p.fields["type"]);
      var res :=
        if h.Some? && MayRun(h.value, reg, conn) then Respond(h.value, reg, db, conn, p.fields, validate, at)
        else Ok(Outcome(reg, db, Unsupported(NidForConn(reg, conn))));
      match res
      case Ok(o) => Some(o)
      case Err(e) => Some(Outcome(reg, db, Error(Field(p.fields, "message_uuid"), e)))
  }

  /** An inbound text frame and the clock readings it is handled at. */
  datatype Frame = Frame(payload: Payload, at: Clock)

  predicate Typed(f: Frame)
  {
    HasType(f.payload)
  }

  predicate Clocked(frames: seq<Frame>)
  {
    forall i :: 0 <= i < |frames| ==> Valid(frames[i].at.utc)
  }

  /** The registry, the database and the replies sent so far. */
  datatype Session = Session(reg: Store, db: Db, sent: seq<Reply>)

  /** The receive loop after it has handled `frames` in order: one reply per
      frame that has a `type`, none for the others. */
  function Receive(reg: Store, db: Db, conn: int, frames: seq<Frame>, validate: Validator): (s: Session)
    requires WellTyped(reg) && Clocked(frames)
    ensures WellTyped(s.reg)
    ensures IdsFresh(db) ==> IdsFresh(s.db)
    ensures |s.sent| == |Filter(frames, Typed)|
  {
    if |frames| == 0 then Session(reg, db, [])
    else
      var init := frames[..|frames| - 1];
      var last := frames[|frames| - 1];
      var prev := Receive(reg, db, conn, init, validate);
      match HandleEnvelope(prev.reg, prev.db, conn, last.payload, validate, last.at)
      case None => prev
      case Some(o) => Session(o.reg, o.db, prev.sent + [o.reply])
  }

  /** The registry and the database. */
  datatype State = State(reg: Store, db: Db)

  /** `update neighbor set chat_last_seen = now() where id = :me`. */
  function TouchLastSeen(db: Db, nid: int, now: int): (r: Db)
    ensures r == db.(lastSeen := r.lastSeen)
    ensures r.lastSeen.Keys == db.lastSeen.Keys
    ensures nid in db.lastSeen ==> r.lastSeen[nid] == Some(now)
    ensures forall n :: n in db.lastSeen && n != nid ==> r.lastSeen[n] == db.lastSeen[n]
  {
    if nid in db.lastSeen then db.(lastSeen := db.lastSeen[nid := Some(now)]) else db
  }

  /** The block after the receive loop. `$neighborId != null` is loose: a
      forward value of "" counts as null, so it is neither used nor deleted,
      while "0" is both. */
  function Disconnect(reg: Store, db: Db, conn: int, now: int): (s: State)
    requires WellTyped(reg)
    ensures WellTyped(s.reg)
    ensures s.reg == Unregister(reg, conn)
    ensures var seen := Fwd(conn) in reg && reg[Fwd(conn)] != Blank;
      && (seen ==> Fwd(conn) !in s.reg && s.db == TouchLastSeen(db, reg[Fwd(conn)].n, now))
      && (!seen ==> s.db == db && (Fwd(conn) in s.reg <==> Fwd(conn) in reg))
  {
    var seen := Fwd(conn) in reg && reg[Fwd(conn)] != Blank;
    var db' := if seen then TouchLastSeen(db, reg[Fwd(conn)].n, now) else db;
    State(Unregister(reg, conn), db')
  }

  /** `handleClient`: the receive loop over the connection's frames, then the
      disconnect block at `closedAt`. Returns the final state and the replies
      sent on the connection, in order. */
  method Serve(reg: Store, db: Db, conn: int, frames: seq<Frame>, validate: Validator, closedAt: int)
    returns (final: State, sent: seq<Reply>)
    requires WellTyped(reg) && Clocked(frames)
    ensures var s := Receive(reg, db, conn, frames, validate);
      sent == s.sent && final == Disconnect(s.reg, s.db, conn, closedAt)
    ensures |sent| == |Filter(frames, Typed)|
    ensures WellTyped(final.reg)
    ensures IdsFresh(db) ==> IdsFresh(final.db)
  {
    var r, d := reg, db;
    sent := [];
    var i := 0;
    while i < |frames|
      invariant 0 <= i <= |frames|
      invariant Clocked(frames[..i])
      invariant Receive(reg, db, conn, frames[..i], validate) == Session(r, d, sent)
      invariant WellTyped(r)
    {
      assert frames[..i + 1][..i] == frames[..i];
      assert Clocked(frames[..i + 1]);
      var o := HandleEnvelope(r, d, conn, frames[i].payload, validate, frames[i].at);
      if o.Some? {
        r, d, sent := o.value.reg, o.value.db, sent + [o.value.reply];
      }
      i := i + 1;
    }
    assert frames[..|frames|] == frames;
    final := Disconnect(r, d, conn, closedAt);
  }

  // ------------------------------------------------------------------ fan-out

  /** The live connections listed in a neighbour's reverse array, in array order. */
  function LiveConns(reg: Store, nid: int, live: set<int>): (cs: seq<int>)
    requires WellTyped(reg)
    ensures forall c :: c in cs <==> c in live && c in ConnsOf(ConnIdsForNid(reg, nid))
    ensures forall c :: c in live ==> Count(cs, c) == Count(ConnsOf(ConnIdsForNid(reg, nid)), c)
  {
    var p := (c: int) => c in live;
    FilterMultiset(ConnsOf(ConnIdsForNid(reg, nid)), p);
    Filter(ConnsOf(ConnIdsForNid(reg, nid)), p)
  }

  /** The connections the listener sends to, in visiting order: for each
      neighbour of the event, its reverse array filtered by the live clients. */
  function Targets(reg: Store, neighbors: seq<int>, live: set<int>): (ts: seq<int>)
    requires WellTyped(reg)
    ensures forall c :: c in ts <==> c in live && exists n :: n in neighbors && c in ConnsOf(ConnIdsForNid(reg, n))
  {
    if |neighbors| == 0 then []
    else
      var init := neighbors[..|neighbors| - 1];
      var n := neighbors[|neighbors| - 1];
      assert forall m :: m in neighbors <==> m in init || m == n;
      Targets(reg, init, live) + LiveConns(reg, n, live)
  }

  /** A message the listener pushes to one connection. */
  datatype Delivery = Delivery(conn: int, reply: Reply)

  /** What one notification produces: the messages sent, and the exception
      that ended the listener, if one did. */
  datatype Fanout = Fanout(sent: seq<Delivery>, aborted: Option<Fault>)

  /** The request the listener hands to `NewMessageSender`. */
  function PushRequest(msgId: Val): map<string, Val>
  {
    map["msg_id" := msgId]
  }

  /** `NewMessageSender` run for one connection: the reply it pushes, or
      the exception it raises. */
  function PushReply(reg: Store, db: Db, conn: int, msgId: Val): (r: Result<Reply, Fault>)
    requires WellTyped(reg)
    ensures r.Ok? <==> MyNeighborId(reg, conn).Ok?
    ensures r.Err? ==> r.error == NoNeighborId(conn)
    ensures r.Ok? ==> NewMessage(reg, db, conn, PushRequest(msgId)) == Ok(Outcome(reg, db, r.value))
    ensures r.Ok? ==> r.value.NewMessageFound? || r.value == NewMessageMissing(msgId)
  {
    assert Field(PushRequest(msgId), "msg_id") == msgId;
    match NewMessage(reg, db, conn, PushRequest(msgId))
    case Err(e) => Err(e)
    case Ok(o) => Ok(o.reply)
  }

  /** The push each target would get, in visiting order. */
  function Pushes(reg: Store, db: Db, targets: seq<int>, msgId: Val): (rs: seq<Result<Reply, Fault>>)
    requires WellTyped(reg)
    ensures |rs| == |targets|
    ensures forall i :: 0 <= i < |targets| ==> rs[i] == PushReply(reg, db, targets[i], msgId)
  {
    seq(|targets|, i requires 0 <= i < |targets| => PushReply(reg, db, targets[i], msgId))
  }

  /** Sends to each target in turn, `pushes[i]` being what `NewMessageSender`
      gives for `targets[i]`. An exception is not caught inside the
      listener, so the first one ends the loop. */
  function Deliver(targets: seq<int>, pushes: seq<Result<Reply, Fault>>): (f: Fanout)
    requires |pushes| == |targets|
    ensures |f.sent| <= |targets|
    ensures forall i :: 0 <= i < |f.sent| ==> pushes[i].Ok? && f.sent[i] == Delivery(targets[i], pushes[i].value)
    ensures f.aborted.None? <==> forall i :: 0 <= i < |pushes| ==> pushes[i].Ok?
    ensures f.aborted.None? ==> |f.sent| == |targets|
    ensures f.aborted.Some? ==> |f.sent| < |targets| && pushes[|f.sent|] == Err(f.aborted.value)
    decreases |targets|
  {
    if |targets| == 0 then Fanout([], None)
    else
      match pushes[0]
      case Err(e) => Fanout([], Some(e))
      case Ok(reply) =>
        var rest := Deliver(targets[1..], pushes[1..]);
        var f := Fanout([Delivery(targets[0], reply)] + rest.sent, rest.aborted);
        assert forall i :: 1 <= i < |f.sent| ==>
          f.sent[i] == rest.sent[i - 1] && targets[i] == targets[1..][i - 1] && pushes[i] == pushes[1..][i - 1];
        assert forall i :: 1 <= i < |pushes| ==> pushes[i] == pushes[1..][i - 1];
        f
  }

  /** What the deliveries of one event carry, by connection: each went to a
      target with that connection's push reply, and without an abort every
      target got one. */
  lemma DeliverFacts(reg: Store, db: Db, targets: seq<int>, msgId: Val)
    requires WellTyped(reg)
    ensures var f := Deliver(targets, Pushes(reg, db, targets, msgId));
      && (forall i :: 0 <= i < |f.sent| ==>
            f.sent[i].conn == targets[i]
            && NewMessage(reg, db, targets[i], PushRequest(msgId)) == Ok(Outcome(reg, db, f.sent[i].reply)))
      && (forall d :: d in f.sent ==> d.reply.NewMessageFound? || d.reply == NewMessageMissing(msgId))
      && (f.aborted.None? <==> forall c :: c in targets ==> MyNeighborId(reg, c).Ok?)
      && (f.aborted.Some? ==>
            f.aborted == Some(NoNeighborId(targets[|f.sent|])) && MyNeighborId(reg, targets[|f.sent|]).Err?)
  {
    var ps := Pushes(reg, db, targets, msgId);
    var f := Deliver(targets, ps);
    forall i | 0 <= i < |f.sent|
      ensures f.sent[i].conn == targets[i]
      ensures NewMessage(reg, db, targets[i], PushRequest(msgId)) == Ok(Outcome(reg, db, f.sent[i].reply))
      ensures f.sent[i].reply.NewMessageFound? || f.sent[i].reply == NewMessageMissing(msgId)
    {
      assert ps[i] == PushReply(reg, db, targets[i], msgId);
    }
    if f.aborted.Some? {
      assert targets[|f.sent|] in targets;
      assert ps[|f.sent|] == PushReply(reg, db, targets[|f.sent|], msgId);
    } else {
      forall c | c in targets
        ensures MyNeighborId(reg, c).Ok?
      {
        var i :| 0 <= i < |targets| && targets[i] == c;
        assert ps[i] == PushReply(reg, db, targets[i], msgId);
      }
    }
  }

  /** A decoded `new_chat_message` notification: `message.id` and the
      `neighbor_id`s of `neighbors`. */
  datatype Event = Event(messageId: Val, neighbors: seq<int>)

  /** One pass of the listener's loop body: the event's targets in visiting
      order (whose membership `Targets` states) are pushed to one by one,
      until a target without a neighbour id raises. */
  function Notify(reg: Store, db: Db, live: set<int>, ev: Event): (f: Fanout)
    requires WellTyped(reg)
    ensures var ts := Targets(reg, ev.neighbors, live);
      && |f.sent| <= |ts|
      && (forall i :: 0 <= i < |f.sent| ==> f.sent[i].conn == ts[i])
      && (forall i :: 0 <= i < |f.sent| ==>
            NewMessage(reg, db, ts[i], PushRequest(ev.messageId)) == Ok(Outcome(reg, db, f.sent[i].reply)))
    ensures var ts := Targets(reg, ev.neighbors, live);
      && (f.aborted.None? <==> forall c :: c in ts ==> MyNeighborId(reg, c).Ok?)
      && (f.aborted.None? ==> |f.sent| == |ts|)
      && (f.aborted.Some? ==>
            |f.sent| < |ts| && f.aborted == Some(NoNeighborId(ts[|f.sent|])) && MyNeighborId(reg, ts[|f.sent|]).Err?)
    ensures forall d :: d in f.sent ==> d.reply.NewMessageFound? || d.reply == NewMessageMissing(ev.messageId)
  {
    var ts := Targets(reg, ev.neighbors, live);
    var f := Deliver(ts, Pushes(reg, db, ts, ev.messageId));
    DeliverFacts(reg, db, ts, ev.messageId);
    f
  }
}
