/** Properties of the gateway that relate several of its steps: identifying,
    disconnecting and fanning a message out. They hold of the registry as the
    code keeps it, which is not an exact index of the live connections. */
module ServerFacts {
  import opened Wrappers
  import opened Wire
  import opened Seqs
  import opened Registry
  import opened ChatStore
  import opened Responders
  import opened ChatServer

  /** A token validator that accepts every token as neighbour `nid`. */
  function AcceptAs(nid: int): Validator
  {
    (t: Val) => map["neighborId" := VInt(nid)]
  }

  lemma AcceptAsClaims(nid: int, t: Val)
    ensures |AcceptAs(nid)(t)| > 0 && ClaimedNid(AcceptAs(nid)(t)) == Some(nid)
  {
    assert "neighborId" in AcceptAs(nid)(t);
  }

  /** What identifying with an accepting validator writes. */
  lemma IdentifyAccepting(reg: Store, db: Db, conn: int, fields: map<string, Val>, nid: int)
    requires WellTyped(reg)
    ensures Identify(reg, db, conn, fields, AcceptAs(nid)).reg == Register(reg, conn, Some(nid))
  {
    AcceptAsClaims(nid, Field(fields, "token"));
  }

  /** Registering appends the connection to the neighbour's listed connections. */
  lemma RegisterLists(reg: Store, conn: int, nid: int)
    requires WellTyped(reg)
    ensures ConnsOf(ConnIdsForNid(Register(reg, conn, Some(nid)), nid)) == ConnsOf(ConnIdsForNid(reg, nid)) + [conn]
  {
    assert ReverseKey(Some(nid)) == Rev(nid);
  }

  /** The fan-out targets of a single neighbour are its live listed connections. */
  lemma TargetsOfOne(reg: Store, nid: int, live: set<int>)
    requires WellTyped(reg)
    ensures Targets(reg, [nid], live) == LiveConns(reg, nid, live)
  {
    assert [nid][..0] == [];
  }

  /** How often a live connection is targeted for a single neighbour. */
  lemma CountTargetsOfOne(reg: Store, nid: int, live: set<int>, c: int)
    requires WellTyped(reg) && c in live
    ensures Count(Targets(reg, [nid], live), c) == Count(ConnsOf(ConnIdsForNid(reg, nid)), c)
  {
    TargetsOfOne(reg, nid, live);
  }

  /** A live connection listed twice more is targeted twice more. */
  lemma TwoMoreTargets(r0: Store, r2: Store, conn: int, nid: int, live: set<int>)
    requires WellTyped(r0) && WellTyped(r2) && conn in live
    requires ConnsOf(ConnIdsForNid(r2, nid)) == ConnsOf(ConnIdsForNid(r0, nid)) + [conn] + [conn]
    ensures Count(Targets(r2, [nid], live), conn) == Count(Targets(r0, [nid], live), conn) + 2
  {
    CountTargetsOfOne(r0, nid, live, conn);
    CountTargetsOfOne(r2, nid, live, conn);
    CountTwoMore(ConnsOf(ConnIdsForNid(r0, nid)), conn);
  }

  lemma CountTwoMore(xs: seq<int>, c: int)
    ensures Count(xs + [c] + [c], c) == Count(xs, c) + 2
  {
    assert multiset(xs + [c] + [c]) == multiset(xs) + multiset{c, c};
  }

  /** Identifying the same connection twice lists it twice: a message for
      that neighbour is then pushed to the connection twice. */
  lemma IdentifyTwiceListsTwice(reg: Store, conn: int, nid: int, live: set<int>)
    requires WellTyped(reg) && conn in live
    ensures var r2 := Register(Register(reg, conn, Some(nid)), conn, Some(nid));
      Count(Targets(r2, [nid], live), conn) == Count(Targets(reg, [nid], live), conn) + 2
  {
    var r1 := Register(reg, conn, Some(nid));
    var r2 := Register(r1, conn, Some(nid));
    RegisterLists(reg, conn, nid);
    RegisterLists(r1, conn, nid);
    TwoMoreTargets(reg, r2, conn, nid, live);
  }

  /** A live connection listed under the event's only neighbour receives the
      push, unless the listener stops early. */
  lemma ListedLiveReached(reg: Store, db: Db, nid: int, live: set<int>, msgId: Val, c: int)
    requires WellTyped(reg) && c in live && c in ConnsOf(ConnIdsForNid(reg, nid))
    ensures var f := Notify(reg, db, live, Event(msgId, [nid]));
      f.aborted.None? ==> exists d :: d in f.sent && d.conn == c
  {
    var ts := Targets(reg, [nid], live);
    assert nid in [nid];
    assert c in ts;
    var f := Notify(reg, db, live, Event(msgId, [nid]));
    if f.aborted.None? {
      var i :| 0 <= i < |ts| && ts[i] == c;
      assert f.sent[i] in f.sent;
    }
  }

  /** A neighbour identified on two connections receives a pushed message on
      both, unless the listener stops early. */
  lemma MultiDeviceDelivery(reg: Store, db: Db, c1: int, c2: int, nid: int, live: set<int>, msgId: Val)
    requires WellTyped(reg) && c1 in live && c2 in live
    ensures var r2 := Register(Register(reg, c1, Some(nid)), c2, Some(nid));
      var f := Notify(r2, db, live, Event(msgId, [nid]));
      f.aborted.None? ==>
        (exists d :: d in f.sent && d.conn == c1) && (exists d :: d in f.sent && d.conn == c2)
  {
    var r1 := Register(reg, c1, Some(nid));
    var r2 := Register(r1, c2, Some(nid));
    RegisterLists(reg, c1, nid);
    RegisterLists(r1, c2, nid);
    var listed := ConnsOf(ConnIdsForNid(r2, nid));
    assert listed == ConnsOf(ConnIdsForNid(reg, nid)) + [c1] + [c2];
    assert c1 in listed && c2 in listed;
    ListedLiveReached(r2, db, nid, live, msgId, c1);
    ListedLiveReached(r2, db, nid, live, msgId, c2);
  }

  /** Disconnecting does not take a connection out of the reverse array of the
      neighbour it identified as: the disconnect block edits the array keyed
      by the connection id instead. */
  lemma StaleEntrySurvivesDisconnect(reg: Store, db: Db, conn: int, nid: int, now: int)
    requires WellTyped(reg) && nid != conn
    ensures var s := Disconnect(Register(reg, conn, Some(nid)), db, conn, now);
      conn in ConnsOf(ConnIdsForNid(s.reg, nid))
  {
    var r1 := Register(reg, conn, Some(nid));
    RegisterLists(reg, conn, nid);
    var listed := ConnsOf(ConnIdsForNid(r1, nid));
    assert listed[|listed| - 1] == conn;
    var r2 := Unregister(r1, conn);
    assert Rev(nid) in r2 && r2[Rev(nid)] == r1[Rev(nid)];
    assert ConnIdsForNid(r2, nid) == ConnIdsForNid(r1, nid);
  }

  /** The stale entry can end the listener: connection 5 identifies as
      neighbour 7 and disconnects; when a new, unidentified connection with
      id 5 is live, a message for neighbour 7 reaches `NewMessageSender` with
      no neighbour id, and the exception stops the listener before anything
      is sent. */
  lemma StaleEntryStopsListener(db: Db)
    ensures var s := Disconnect(Register(map[], 5, Some(7)), db, 5, 0);
      Notify(s.reg, s.db, {5}, Event(VInt(1), [7])) == Fanout([], Some(NoNeighborId(5)))
  {
    var s := Disconnect(Register(map[], 5, Some(7)), db, 5, 0);
    StaleRegistry();
    OnlyTarget(s.reg, 7, 5);
    OnlyTargetRaises(s.reg, s.db, 7, 5, VInt(1));
  }

  /** After connection 5 identifies as neighbour 7 and disconnects, it has no
      forward key but is still neighbour 7's only listed connection. */
  lemma StaleRegistry()
    ensures var r2 := Unregister(Register(map[], 5, Some(7)), 5);
      Fwd(5) !in r2 && ConnsOf(ConnIdsForNid(r2, 7)) == [5]
  {
    var r1 := Register(map[], 5, Some(7));
    RegisterLists(map[], 5, 7);
    var r2 := Unregister(r1, 5);
    assert Fwd(5) !in r2;
    assert ConnIdsForNid(r2, 7) == ConnIdsForNid(r1, 7);
  }

  /** A neighbour whose only listed connection is `c`, with `c` live, is
      fanned out to `c` alone. */
  lemma OnlyTarget(reg: Store, nid: int, c: int)
    requires WellTyped(reg) && ConnsOf(ConnIdsForNid(reg, nid)) == [c]
    ensures Targets(reg, [nid], {c}) == [c]
  {
    TargetsOfOne(reg, nid, {c});
    var xs := ConnsOf(ConnIdsForNid(reg, nid));
    assert xs[..0] == [];
  }

  /** The push to a single unidentified target raises before anything is sent. */
  lemma OnlyTargetRaises(reg: Store, db: Db, nid: int, c: int, msgId: Val)
    requires WellTyped(reg) && Targets(reg, [nid], {c}) == [c] && Fwd(c) !in reg
    ensures Notify(reg, db, {c}, Event(msgId, [nid])) == Fanout([], Some(NoNeighborId(c)))
  {
    assert MyNeighborId(reg, c).Err?;
  }
}
