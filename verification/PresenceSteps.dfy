/** What each socket event does, read off sockets, connections, rooms and heartbeats. */
module PresenceSteps {
  import opened JsText
  import opened Presence
  import opened PresenceRuns
  import opened PresenceAwaits

  ghost predicate SameRooms(s: State, t: State) { forall k, ch :: InRoom(t, k, ch) <==> InRoom(s, k, ch) }

  ghost predicate SameConnections(s: State, t: State) { forall k, u :: Connected(t, k, u) <==> Connected(s, k, u) }

  /** All sockets but `ws` are as before, views aside. */
  ghost predicate OtherSockets(s: State, t: State, ws: Id) {
    && t.sockets.Keys == s.sockets.Keys
    && forall k :: k in s.sockets && k != ws ==> t.sockets[k].(view := map[]) == s.sockets[k].(view := map[])
  }

  /** The sweep: away are those who were, and those online whose last heartbeat is longer ago
      than presenceStaleMs; nobody goes offline and no heartbeat is touched. */
  lemma SweepExactly(s: State, now: int, c: Settings, u: Id)
    ensures var t := Next(s, Step.Sweep(now), c);
      && (u in t.presenceByUser <==> u in s.presenceByUser)
      && (u in s.presenceByUser ==>
            && t.presenceByUser[u].lastHeartbeat == s.presenceByUser[u].lastHeartbeat
            && (t.presenceByUser[u].status == Away <==>
                  s.presenceByUser[u].status == Away || now - s.presenceByUser[u].lastHeartbeat > c.presenceStaleMs))
      && t.userConnections == s.userConnections && t.channelRooms == s.channelRooms
      && forall k :: k in s.sockets ==> k in t.sockets && t.sockets[k].(view := map[]) == s.sockets[k].(view := map[])
  {
    hide SweptView;
  }

  /** A heartbeat: its user is online from now on, and nobody else's presence changes. */
  lemma HeartbeatExactly(s: State, ws: Id, now: int, c: Settings)
    requires IsAuthenticated(s, ws)
    ensures var t, u := Next(s, Step.Heartbeat(ws, now), c), s.sockets[ws].userId;
      t.presenceByUser == s.presenceByUser[u := Entry(now, Online)] && SameButViews(s, t)
  {
    BeatenLeaves(s, s.sockets[ws].userId, now);
    hide AllStatuses, Folded;
  }

  /** The socket is the user's and connected; views aside that is all. */
  ghost predicate IsTaken(s: State, t: State, ws: Id, u: Id) {
    && ws in s.sockets && OtherSockets(s, t, ws) && t.channelRooms == s.channelRooms
    && t.sockets[ws].(view := map[]) == s.sockets[ws].(authenticated := true, userId := u, view := map[])
    && (forall k, v :: Connected(t, k, v) <==> Connected(s, k, v) || (k == ws && v == u && !s.sockets[ws].authenticated))
  }

  /** Authentication is refused for a bad token, another user's socket, or one too many; a
      refusal starts the socket's close and does nothing else. Otherwise the socket is its
      user's, connected, and the user online. */
  lemma AuthenticateExactly(s: State, ws: Id, u: Id, accepted: bool, now: int, c: Settings)
    requires IsLive(s, ws)
    ensures var t, sock := Next(s, Step.Authenticate(ws, u, accepted, now), c), s.sockets[ws];
      if accepted && (if sock.authenticated then sock.userId == u else ConnectionCount(s, u) < c.maxConnectionsPerUser)
      then IsTaken(s, t, ws, u) && t.presenceByUser == s.presenceByUser[u := Entry(now, Online)]
      else t == s.(sockets := s.sockets[ws := sock.(phase := if sock.phase == Open then Closing else sock.phase)])
  {
    var sock := s.sockets[ws];
    hide Registered, Beaten, Snapshot, Connected, SameRooms;
    if accepted && (if sock.authenticated then sock.userId == u else ConnectionCount(s, u) < c.maxConnectionsPerUser) {
      var s2 := (if sock.authenticated then s else Registered(s, u, ws)).(sockets := s.sockets[ws := sock.(authenticated := true, userId := u)]);
      RegisteredExactly(s, ws, u);
      assert IsTaken(s, s2, ws, u);
      hide IsTaken;
      BeatenLeaves(s2, u, now);
      SnapshotLeaves(Beaten(s2, u, now), ws);
      BeatenPresence(s2, u, now);
      AfterBeat(s2, Beaten(s2, u, now), Snapshot(Beaten(s2, u, now), ws));
      StaysTaken(s, s2, Snapshot(Beaten(s2, u, now), ws), ws, u);
    }
  }

  lemma StaysTaken(s: State, t: State, r: State, ws: Id, u: Id)
    requires IsTaken(s, t, ws, u) && SameButViews(t, r)
    ensures IsTaken(s, r, ws, u)
  {
    forall k | k in s.sockets && k != ws ensures r.sockets[k].(view := map[]) == s.sockets[k].(view := map[]) {
      assert t.sockets[k].(view := map[]) == s.sockets[k].(view := map[]);
    }
    assert t.sockets[ws].(view := map[]) == r.sockets[ws].(view := map[]);
    assert forall k, v :: Connected(r, k, v) <==> Connected(t, k, v);
  }

  lemma RegisteredExactly(s: State, ws: Id, u: Id)
    requires ws in s.sockets
    ensures var t := Registered(s, u, ws);
      && t.sockets == s.sockets && t.channelRooms == s.channelRooms && t.presenceByUser == s.presenceByUser
      && forall k, v :: Connected(t, k, v) <==> Connected(s, k, v) || (k == ws && v == u)
    ensures forall k, v :: Connected(s.(sockets := s.sockets[ws := s.sockets[ws].(authenticated := true, userId := u)]), k, v) <==> Connected(s, k, v)
    ensures var r := Registered(s, u, ws).(sockets := s.sockets[ws := s.sockets[ws].(authenticated := true, userId := u)]);
      forall k, v :: Connected(r, k, v) <==> Connected(s, k, v) || (k == ws && v == u)
  {
  }

  lemma BeatenPresence(s: State, u: Id, now: int)
    ensures Beaten(s, u, now).presenceByUser == s.presenceByUser[u := Entry(now, Online)]
  {
  }

  lemma AfterBeat(s: State, t: State, r: State)
    requires SameButViews(s, t) && SameButViews(t, r)
    ensures SameButViews(s, r)
  {
    forall k | k in s.sockets ensures s.sockets[k].(view := map[]) == r.sockets[k].(view := map[]) {
      assert s.sockets[k].(view := map[]) == t.sockets[k].(view := map[]);
    }
  }

  /** A join of a member puts this socket into this room; a join of anybody else nothing. */
  lemma JoinExactly(s: State, ws: Id, ch: Id, isMember: bool, c: Settings)
    ensures var t := Next(s, Step.Join(ws, ch, isMember), c);
      && (forall k, h :: InRoom(t, k, h) <==> InRoom(s, k, h) || (k == ws && h == ch && isMember && IsAuthenticated(s, ws)))
      && (forall k, h :: HasJoined(t, k, h) <==> HasJoined(s, k, h) || (k == ws && h == ch && isMember && IsAuthenticated(s, ws)))
      && OtherSockets(s, t, ws) && t.userConnections == s.userConnections && t.presenceByUser == s.presenceByUser
  {
  }

  /** A leave takes this socket out of this room and no other. */
  lemma LeaveExactly(s: State, ws: Id, ch: Id, c: Settings)
    requires IsAuthenticated(s, ws)
    ensures var t := Next(s, Step.Leave(ws, ch), c);
      && (forall k, h :: InRoom(t, k, h) <==> InRoom(s, k, h) && !(k == ws && h == ch))
      && (forall k, h :: HasJoined(t, k, h) <==> HasJoined(s, k, h) && !(k == ws && h == ch))
      && OtherSockets(s, t, ws) && t.userConnections == s.userConnections && t.presenceByUser == s.presenceByUser
  {
    forall k, h
      ensures InRoom(Left(s, {ch}, ws), k, h) <==> InRoom(s, k, h) && !(k == ws && h == ch)
      ensures HasJoined(Left(s, {ch}, ws), k, h) <==> HasJoined(s, k, h) && !(k == ws && h == ch) {
      LeftRoom(s, {ch}, ws, k, h);
    }
    hide InRoom, HasJoined;
  }

  /** The close event: the socket is closed, out of its rooms and of the registry, and its
      user is gone exactly when no other socket of his is connected. */
  lemma CloseExactly(s: State, ws: Id, c: Settings)
    requires Invariant(s, c) && IsLive(s, ws)
    ensures var t, u := Next(s, Step.CloseEvent(ws), c), s.sockets[ws].userId;
      && ws in t.sockets && t.sockets[ws].phase == Closed
      && (forall k, v :: Connected(t, k, v) <==> Connected(s, k, v) && k != ws)
      && (forall k, h :: InRoom(t, k, h) <==> InRoom(s, k, h) && k != ws)
      && (forall v :: v in t.presenceByUser <==>
            v in s.presenceByUser && !(s.sockets[ws].authenticated && v == u && forall k :: Connected(s, k, v) ==> k == ws))
      && (forall v :: v in t.presenceByUser ==> t.presenceByUser[v] == s.presenceByUser[v])
  {
    var t := Next(s, Step.CloseEvent(ws), c);
    CloseKeeps(s, ws, c);
    CloseRooms(s, ws, c);
    ClosePresence(s, ws);
    hide DoCloseEvent, AllStatuses;
    forall k, v ensures Connected(t, k, v) <==> Connected(s, k, v) && k != ws {
      CloseSockets(s, ws, k);
      assert Connected(t, k, v) <==> IsSocketOf(t, k, v);
      assert Connected(s, k, v) <==> IsSocketOf(s, k, v);
    }
    forall v ensures v in t.presenceByUser <==>
        v in s.presenceByUser && !(s.sockets[ws].authenticated && v == s.sockets[ws].userId && forall k :: Connected(s, k, v) ==> k == ws) {
      UsersAre(s, v);
      UsersAre(t, v);
      if v in s.presenceByUser && !(s.sockets[ws].authenticated && v == s.sockets[ws].userId) {
        var k :| Connected(s, k, v);
        assert IsSocketOf(s, k, v);
      }
    }
    hide Connected, InRoom;
    CloseSockets(s, ws, ws);
  }

  /** A user is in the registry exactly with a socket. */
  lemma UsersAre(s: State, u: Id)
    requires RegistryFits(s)
    ensures u in s.userConnections <==> exists k :: Connected(s, k, u)
  {
    if u in s.userConnections {
      var k :| k in s.userConnections[u];
      assert Connected(s, k, u);
    }
  }

  lemma CloseSockets(s: State, ws: Id, k: Id)
    requires IsLive(s, ws)
    ensures var t := DoCloseEvent(s, ws);
      && t.sockets.Keys == s.sockets.Keys && t.sockets[ws].phase == Closed
      && (k in s.sockets && k != ws ==> t.sockets[k].(view := map[]) == s.sockets[k].(view := map[]))
  {
    var u := s.sockets[ws].userId;
    var gone := Unregistered(Left(SetPhase(s, ws, Closed), s.sockets[ws].joinedChannels, ws), u, ws);
    hide Folded, RoomsLeft;
    ToldLeaves(gone.(presenceByUser := gone.presenceByUser - {u}), u, None);
    hide Told;
  }

  lemma CloseRooms(s: State, ws: Id, c: Settings)
    requires Invariant(s, c) && IsLive(s, ws)
    ensures forall k, h :: InRoom(DoCloseEvent(s, ws), k, h) <==> InRoom(s, k, h) && k != ws
  {
    hide Told;
    var s1 := SetPhase(s, ws, Closed);
    forall k, h ensures InRoom(DoCloseEvent(s, ws), k, h) <==> InRoom(s, k, h) && k != ws {
      assert InRoom(s, k, h) <==> HasJoined(s, k, h);
      assert HasJoined(s, k, h) ==> IsAuthenticated(s, k);
      LeftRoom(s1, s.sockets[ws].joinedChannels, ws, k, h);
      ToldRooms(Unregistered(Left(s1, s.sockets[ws].joinedChannels, ws), s.sockets[ws].userId, ws), s.sockets[ws].userId);
      assert InRoom(s1, k, h) <==> InRoom(s, k, h);
      hide RegistryFits, ViewsAre;
    }
  }

  lemma ToldRooms(s: State, u: Id)
    ensures Disconnected(s, u).channelRooms == s.channelRooms
  {
  }

  lemma ClosePresence(s: State, ws: Id)
    requires IsLive(s, ws)
    ensures forall v :: v in DoCloseEvent(s, ws).presenceByUser ==> v in s.presenceByUser && DoCloseEvent(s, ws).presenceByUser[v] == s.presenceByUser[v]
  {
    hide RoomsLeft, Folded;
  }

  /** A new socket is open and nobody's; starting a close changes its phase alone. */
  lemma ConnectExactly(s: State, ws: Id, c: Settings)
    ensures var t := Next(s, Step.Connect(ws), c);
      t == if ws in s.sockets then s else s.(sockets := s.sockets[ws := Socket(Open, false, 0, {}, map[])])
    ensures var t := Next(s, Step.StartClose(ws), c);
      t == if ws in s.sockets && s.sockets[ws].phase == Open then s.(sockets := s.sockets[ws := s.sockets[ws].(phase := Closing)]) else s
  {
  }
}
