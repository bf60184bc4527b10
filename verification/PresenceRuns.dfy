/** What every run of socket events keeps: the registry, the rooms and the connection
    cap, and that every client's folded view is the server's list of statuses. */
module PresenceRuns {
  import opened JsText
  import opened Presence

  predicate IsSocketOf(s: State, ws: Id, u: Id) { IsAuthenticated(s, ws) && s.sockets[ws].userId == u }

  predicate Connected(s: State, ws: Id, u: Id) { u in s.userConnections && ws in s.userConnections[u] }

  /** The registry holds exactly the authenticated sockets that have not closed. */
  ghost predicate RegistryFits(s: State) {
    && (forall u :: u in s.userConnections ==> s.userConnections[u] != {})
    && (forall u, ws :: Connected(s, ws, u) <==> IsSocketOf(s, ws, u))
  }

  predicate InRoom(s: State, ws: Id, ch: Id) { ch in s.channelRooms && ws in s.channelRooms[ch] }

  predicate HasJoined(s: State, ws: Id, ch: Id) { ws in s.sockets && ch in s.sockets[ws].joinedChannels }

  /** Rooms and joinedChannels mirror each other; only live authenticated sockets join. */
  ghost predicate RoomsFit(s: State) {
    && (forall ch :: ch in s.channelRooms ==> s.channelRooms[ch] != {})
    && (forall ch, ws :: InRoom(s, ws, ch) <==> HasJoined(s, ws, ch))
    && (forall ch, ws :: HasJoined(s, ws, ch) ==> IsAuthenticated(s, ws))
  }

  predicate Receives(s: State, ws: Id) { IsAuthenticated(s, ws) && s.sockets[ws].phase == Open }

  ghost predicate ViewsAre(s: State, view: map<Id, Status>, except: set<Id>) {
    forall ws :: Receives(s, ws) && ws !in except ==> s.sockets[ws].view == view
  }

  ghost predicate Invariant(s: State, c: Settings) {
    && RegistryFits(s) && RoomsFit(s)
    && s.presenceByUser.Keys == s.userConnections.Keys
    && (forall u :: ConnectionCount(s, u) <= c.maxConnectionsPerUser)
    && ViewsAre(s, AllStatuses(s.presenceByUser), {})
  }

  /** The states differ in views and presence at most. */
  ghost predicate SameButViews(s: State, t: State) {
    && s.userConnections == t.userConnections && s.channelRooms == t.channelRooms && s.sockets.Keys == t.sockets.Keys
    && forall ws :: ws in s.sockets ==> s.sockets[ws].(view := map[]) == t.sockets[ws].(view := map[])
  }

  lemma SameKeeps(s: State, t: State)
    requires SameButViews(s, t)
    ensures RegistryFits(s) ==> RegistryFits(t)
    ensures RoomsFit(s) ==> RoomsFit(t)
    ensures forall ws :: Receives(t, ws) <==> Receives(s, ws)
    ensures forall u :: ConnectionCount(t, u) == ConnectionCount(s, u)
  {
    forall ws ensures IsAuthenticated(t, ws) <==> IsAuthenticated(s, ws) {
      assert ws in s.sockets ==> s.sockets[ws].(view := map[]) == t.sockets[ws].(view := map[]);
    }
    forall ws, u ensures IsSocketOf(t, ws, u) <==> IsSocketOf(s, ws, u) {
      assert ws in s.sockets ==> s.sockets[ws].(view := map[]) == t.sockets[ws].(view := map[]);
    }
    forall ws, ch ensures HasJoined(t, ws, ch) <==> HasJoined(s, ws, ch) {
      assert ws in s.sockets ==> s.sockets[ws].(view := map[]) == t.sockets[ws].(view := map[]);
    }
    forall ws ensures Receives(t, ws) <==> Receives(s, ws) {
      assert ws in s.sockets ==> s.sockets[ws].(view := map[]) == t.sockets[ws].(view := map[]);
    }
    assert forall ws, u :: Connected(t, ws, u) <==> Connected(s, ws, u);
    assert forall ws, ch :: InRoom(t, ws, ch) <==> InRoom(s, ws, ch);
  }

  lemma RegisteredIffAuthenticated(s: State, ws: Id)
    requires RegistryFits(s)
    ensures IsRegistered(s.userConnections, ws) <==> IsAuthenticated(s, ws)
  {
    if IsAuthenticated(s, ws) { assert Connected(s, ws, s.sockets[ws].userId); }
    if u :| u in s.userConnections && ws in s.userConnections[u] { assert Connected(s, ws, u); }
  }

  /** A presence_update reaches every client and changes its view as it says. */
  lemma ToldFolds(s: State, u: Id, status: Option<Status>, view: map<Id, Status>, except: set<Id>)
    requires RegistryFits(s) && ViewsAre(s, view, except)
    ensures SameButViews(s, Told(s, u, status))
    ensures Told(s, u, status).presenceByUser == s.presenceByUser
    ensures ViewsAre(Told(s, u, status), Folded(view, u, status), except)
  {
    var t := Told(s, u, status);
    forall ws | Receives(t, ws) && ws !in except ensures t.sockets[ws].view == Folded(view, u, status) {
      assert Receives(s, ws);
      RegisteredIffAuthenticated(s, ws);
    }
  }

  /** After a heartbeat every client knows the user as online. */
  lemma BeatenFits(s: State, u: Id, now: int, except: set<Id>)
    requires RegistryFits(s) && ViewsAre(s, AllStatuses(s.presenceByUser), except)
    ensures var t := Beaten(s, u, now);
      && SameButViews(s, t) && t.presenceByUser.Keys == s.presenceByUser.Keys + {u}
      && ViewsAre(t, AllStatuses(t.presenceByUser), except)
  {
    StatusesBeaten(s.presenceByUser, u, now);
    hide Told, RegistryFits, RoomsFit, Receives, AllStatuses, Folded;
    var s' := s.(presenceByUser := s.presenceByUser[u := Entry(now, Online)]);
    SameKeeps(s, s');
    if !(u in s.presenceByUser && s.presenceByUser[u].status == Online) {
      ToldFolds(s', u, Some(Online), AllStatuses(s.presenceByUser), except);
    }
  }

  lemma StatusesBeaten(presence: map<Id, Entry>, u: Id, now: int)
    ensures AllStatuses(presence[u := Entry(now, Online)]) == Folded(AllStatuses(presence), u, Some(Online))
    ensures u in presence && presence[u].status == Online ==> AllStatuses(presence[u := Entry(now, Online)]) == AllStatuses(presence)
  {
  }

  lemma SweptFits(s: State, us: set<Id>, now: int, c: Settings)
    requires RegistryFits(s) && ViewsAre(s, AllStatuses(s.presenceByUser), {})
    ensures var t := Swept(s, us, now, c);
      && SameButViews(s, t) && t.presenceByUser.Keys == s.presenceByUser.Keys
      && ViewsAre(t, AllStatuses(t.presenceByUser), {})
  {
    var t := Swept(s, us, now, c);
    StatusesSwept(s, us, now, c);
    hide AllStatuses, SweptView, IsStale;
    forall ws | Receives(t, ws) ensures t.sockets[ws].view == AllStatuses(t.presenceByUser) {
      assert Receives(s, ws);
      RegisteredIffAuthenticated(s, ws);
    }
    hide RegistryFits, Receives;
  }

  lemma StatusesSwept(s: State, us: set<Id>, now: int, c: Settings)
    ensures SweptView(AllStatuses(s.presenceByUser), s.presenceByUser, us, now, c) == AllStatuses(Swept(s, us, now, c).presenceByUser)
  {
    hide IsRegistered;
  }

  // ------------------------------------------------------------ authentication

  lemma RegisteredFits(s: State, u: Id, ws: Id)
    requires RegistryFits(s) && RoomsFit(s) && IsLive(s, ws) && !s.sockets[ws].authenticated
    ensures var t := Registered(s, u, ws).(sockets := s.sockets[ws := s.sockets[ws].(authenticated := true, userId := u)]);
      && RegistryFits(t) && RoomsFit(t) && ConnectionCount(t, u) == ConnectionCount(s, u) + 1
      && (forall v :: v != u ==> ConnectionCount(t, v) == ConnectionCount(s, v))
      && (forall v :: v in t.userConnections <==> v in s.userConnections || v == u)
      && (forall k :: k != ws ==> (Receives(t, k) <==> Receives(s, k)))
  {
    var t := Registered(s, u, ws).(sockets := s.sockets[ws := s.sockets[ws].(authenticated := true, userId := u)]);
    assert !Connected(s, ws, u);
    forall v, k ensures Connected(t, k, v) <==> IsSocketOf(t, k, v) {
      assert Connected(s, k, v) <==> IsSocketOf(s, k, v);
    }
    forall ch, k ensures (InRoom(t, k, ch) <==> HasJoined(t, k, ch)) && (HasJoined(t, k, ch) ==> IsAuthenticated(t, k)) {
      assert InRoom(s, k, ch) <==> HasJoined(s, k, ch);
      assert HasJoined(s, k, ch) ==> IsAuthenticated(s, k);
    }
  }

  lemma SnapshotFits(s: State, ws: Id)
    requires ViewsAre(s, AllStatuses(s.presenceByUser), {ws})
    ensures var t := Snapshot(s, ws);
      SameButViews(s, t) && t.presenceByUser == s.presenceByUser && ViewsAre(t, AllStatuses(t.presenceByUser), {})
  {
    hide AllStatuses;
  }

  lemma ClosesKeeps(s: State, ws: Id, c: Settings)
    requires Invariant(s, c) && IsLive(s, ws)
    ensures Invariant(Closes(s, ws), c)
  {
    var t := Closes(s, ws);
    assert forall k :: IsAuthenticated(t, k) <==> IsAuthenticated(s, k);
    assert forall k, u :: IsSocketOf(t, k, u) <==> IsSocketOf(s, k, u);
    assert forall k, u :: Connected(t, k, u) <==> Connected(s, k, u);
    assert forall k, ch :: (HasJoined(t, k, ch) <==> HasJoined(s, k, ch)) && (InRoom(t, k, ch) <==> InRoom(s, k, ch));
    assert forall k :: Receives(t, k) ==> Receives(s, k);
    assert forall u :: ConnectionCount(t, u) == ConnectionCount(s, u);
  }

  lemma AuthenticateKeeps(s: State, ws: Id, u: Id, accepted: bool, now: int, c: Settings)
    requires Invariant(s, c) && IsLive(s, ws)
    ensures Invariant(DoAuthenticate(s, ws, u, accepted, now, c), c)
  {
    hide Invariant, Beaten, Snapshot, Registered;
    var sock := s.sockets[ws];
    if !accepted || (sock.authenticated && sock.userId != u) || (!sock.authenticated && ConnectionCount(s, u) >= c.maxConnectionsPerUser) {
      ClosesKeeps(s, ws, c);
    } else {
      AcceptedKeeps(s, ws, u, now, c);
    }
  }

  lemma AcceptedKeeps(s: State, ws: Id, u: Id, now: int, c: Settings)
    requires Invariant(s, c) && IsLive(s, ws)
    requires if s.sockets[ws].authenticated then s.sockets[ws].userId == u else ConnectionCount(s, u) < c.maxConnectionsPerUser
    ensures var s1 := if s.sockets[ws].authenticated then s else Registered(s, u, ws);
      var s2 := s1.(sockets := s1.sockets[ws := s.sockets[ws].(authenticated := true, userId := u)]);
      Invariant(Snapshot(Beaten(s2, u, now), ws), c)
  {
    hide RegistryFits, RoomsFit, ViewsAre, SameButViews, Beaten, Snapshot, Receives;
    var sock := s.sockets[ws];
    var s2 := (if sock.authenticated then s else Registered(s, u, ws)).(sockets := s.sockets[ws := sock.(authenticated := true, userId := u)]);
    if sock.authenticated { ReauthSame(s, ws, u); } else { RegisteredFits(s, u, ws); }
    assert ViewsAre(s2, AllStatuses(s2.presenceByUser), {ws}) by { OthersSee(s, s2, ws); }
    BeatenFits(s2, u, now, {ws});
    var s3 := Beaten(s2, u, now);
    SameKeeps(s2, s3);
    SnapshotFits(s3, ws);
    SameKeeps(s3, Snapshot(s3, ws));
    SameConnections(s2, s3);
    SameConnections(s3, Snapshot(s3, ws));
    UserKnown(s2, s, ws, u);
    hide Registered;
  }

  lemma SameConnections(s: State, t: State)
    requires SameButViews(s, t)
    ensures s.userConnections == t.userConnections
  {
  }

  lemma ReauthSame(s: State, ws: Id, u: Id)
    requires IsSocketOf(s, ws, u)
    ensures s.(sockets := s.sockets[ws := s.sockets[ws].(authenticated := true, userId := u)]) == s
  {
  }

  lemma OthersSee(s: State, t: State, ws: Id)
    requires ViewsAre(s, AllStatuses(s.presenceByUser), {}) && t.presenceByUser == s.presenceByUser
    requires forall k :: k != ws ==> (Receives(t, k) <==> Receives(s, k)) && (Receives(s, k) ==> t.sockets[k] == s.sockets[k])
    ensures ViewsAre(t, AllStatuses(t.presenceByUser), {ws})
  {
  }

  lemma UserKnown(t: State, s: State, ws: Id, u: Id)
    requires RegistryFits(t) && IsSocketOf(t, ws, u)
    ensures u in t.userConnections
  {
  }

  // ------------------------------------------------------------- other handlers

  lemma JoinKeeps(s: State, ws: Id, ch: Id, c: Settings)
    requires Invariant(s, c) && IsAuthenticated(s, ws)
    ensures Invariant(Joined(s, ch, ws), c)
  {
    var t := Joined(s, ch, ws);
    RoomChange(s, t, c);
    forall k, h ensures (InRoom(t, k, h) <==> HasJoined(t, k, h)) && (HasJoined(t, k, h) ==> IsAuthenticated(t, k)) {
      assert InRoom(s, k, h) <==> HasJoined(s, k, h);
      assert HasJoined(s, k, h) ==> IsAuthenticated(s, k);
    }
  }

  lemma LeaveKeeps(s: State, ws: Id, chs: set<Id>, c: Settings)
    requires Invariant(s, c) && IsAuthenticated(s, ws)
    ensures Invariant(Left(s, chs, ws), c)
  {
    var t := Left(s, chs, ws);
    RoomChange(s, t, c);
    hide RegistryFits, ViewsAre;
    forall k, h ensures (InRoom(t, k, h) <==> HasJoined(t, k, h)) && (HasJoined(t, k, h) ==> IsAuthenticated(t, k)) {
      assert InRoom(s, k, h) <==> HasJoined(s, k, h);
      assert HasJoined(s, k, h) ==> IsAuthenticated(s, k);
      LeftRoom(s, chs, ws, k, h);
    }
    forall h | h in t.channelRooms ensures t.channelRooms[h] != {} { NoEmptyRoom(s.channelRooms, chs, ws, h); }
  }

  /** Who is in which room after a leave. */
  lemma LeftRoom(s: State, chs: set<Id>, ws: Id, k: Id, h: Id)
    requires ws in s.sockets
    ensures var t := Left(s, chs, ws);
      && (InRoom(t, k, h) <==> InRoom(s, k, h) && !(k == ws && h in chs))
      && (HasJoined(t, k, h) <==> HasJoined(s, k, h) && !(k == ws && h in chs))
  {
    if InRoom(s, k, h) && k != ws { assert k in s.channelRooms[h] - {ws}; }
  }

  lemma NoEmptyRoom(rooms: map<Id, set<Id>>, chs: set<Id>, ws: Id, h: Id)
    requires forall ch :: ch in rooms ==> rooms[ch] != {}
    requires h in RoomsLeft(rooms, chs, ws)
    ensures RoomsLeft(rooms, chs, ws)[h] != {}
  {
  }

  /** Rooms and joinedChannels apart, a step over them leaves everything as it was. */
  lemma RoomChange(s: State, t: State, c: Settings)
    requires Invariant(s, c) && t.userConnections == s.userConnections && t.presenceByUser == s.presenceByUser
    requires t.sockets.Keys == s.sockets.Keys
    requires forall k :: k in s.sockets ==> t.sockets[k].(joinedChannels := {}) == s.sockets[k].(joinedChannels := {})
    ensures RegistryFits(t) && ViewsAre(t, AllStatuses(t.presenceByUser), {})
    ensures forall u :: ConnectionCount(t, u) == ConnectionCount(s, u)
    ensures forall k :: IsAuthenticated(t, k) <==> IsAuthenticated(s, k)
  {
    hide AllStatuses, RoomsFit;
    forall k
      ensures IsAuthenticated(t, k) <==> IsAuthenticated(s, k)
      ensures Receives(t, k) ==> Receives(s, k) && t.sockets[k].view == s.sockets[k].view
    {
      assert k in s.sockets ==> t.sockets[k].(joinedChannels := {}) == s.sockets[k].(joinedChannels := {});
    }
    forall k, u ensures IsSocketOf(t, k, u) <==> IsSocketOf(s, k, u) {
      assert k in s.sockets ==> t.sockets[k].(joinedChannels := {}) == s.sockets[k].(joinedChannels := {});
    }
    assert forall k, u :: Connected(t, k, u) <==> Connected(s, k, u);
  }

  lemma HeartbeatKeeps(s: State, ws: Id, now: int, c: Settings)
    requires Invariant(s, c) && IsAuthenticated(s, ws)
    ensures Invariant(Beaten(s, s.sockets[ws].userId, now), c)
  {
    hide RegistryFits, RoomsFit, ViewsAre, Beaten, Receives, SameButViews;
    var u := s.sockets[ws].userId;
    BeatenFits(s, u, now, {});
    SameKeeps(s, Beaten(s, u, now));
    SameConnections(s, Beaten(s, u, now));
    UserKnown(s, s, ws, u);
  }

  lemma SweepKeeps(s: State, now: int, c: Settings)
    requires Invariant(s, c)
    ensures Invariant(Swept(s, s.presenceByUser.Keys, now, c), c)
  {
    hide RegistryFits, RoomsFit, ViewsAre, Swept, Receives, SameButViews;
    SweptFits(s, s.presenceByUser.Keys, now, c);
    SameKeeps(s, Swept(s, s.presenceByUser.Keys, now, c));
    SameConnections(s, Swept(s, s.presenceByUser.Keys, now, c));
  }

  lemma ConnectKeeps(s: State, ws: Id, c: Settings)
    requires Invariant(s, c) && ws !in s.sockets
    ensures Invariant(Next(s, Connect(ws), c), c)
  {
    hide AllStatuses;
    var t := Next(s, Connect(ws), c);
    assert forall k :: IsAuthenticated(t, k) <==> IsAuthenticated(s, k);
    assert forall k, u :: IsSocketOf(t, k, u) <==> IsSocketOf(s, k, u);
    assert forall k, u :: Connected(t, k, u) <==> Connected(s, k, u);
    assert forall k, ch :: (HasJoined(t, k, ch) <==> HasJoined(s, k, ch)) && (InRoom(t, k, ch) <==> InRoom(s, k, ch));
    assert forall k :: Receives(t, k) ==> Receives(s, k);
    assert forall u :: ConnectionCount(t, u) == ConnectionCount(s, u);
  }

  // --------------------------------------------------------------- close event

  /** A socket that never authenticated is nowhere. */
  lemma StrangerCloses(s: State, ws: Id, c: Settings)
    requires Invariant(s, c) && IsLive(s, ws) && !s.sockets[ws].authenticated
    ensures Invariant(SetPhase(s, ws, Closed), c)
  {
    hide AllStatuses;
    var t := SetPhase(s, ws, Closed);
    assert forall k :: IsAuthenticated(t, k) <==> IsAuthenticated(s, k);
    assert forall k, u :: IsSocketOf(t, k, u) <==> IsSocketOf(s, k, u);
    assert forall k, u :: Connected(t, k, u) <==> Connected(s, k, u);
    assert forall k, ch :: (HasJoined(t, k, ch) <==> HasJoined(s, k, ch)) && (InRoom(t, k, ch) <==> InRoom(s, k, ch));
    assert forall k :: Receives(t, k) ==> Receives(s, k);
    assert forall u :: ConnectionCount(t, u) == ConnectionCount(s, u);
  }

  /** The socket is taken out of its rooms and the registry. */
  lemma GoneFits(s: State, ws: Id, u: Id, c: Settings)
    requires Invariant(s, c) && IsSocketOf(s, ws, u)
    ensures var t := Unregistered(Left(SetPhase(s, ws, Closed), s.sockets[ws].joinedChannels, ws), u, ws);
      && RegistryFits(t) && RoomsFit(t) && ViewsAre(t, AllStatuses(s.presenceByUser), {}) && t.presenceByUser == s.presenceByUser
      && (forall v :: ConnectionCount(t, v) <= ConnectionCount(s, v))
      && (forall v :: v in t.userConnections <==> v in s.userConnections && (v == u ==> ConnectionCount(t, u) > 0))
  {
    hide AllStatuses;
    assert Connected(s, ws, u);
    var t := Unregistered(Left(SetPhase(s, ws, Closed), s.sockets[ws].joinedChannels, ws), u, ws);
    forall k, v ensures Connected(t, k, v) <==> IsSocketOf(t, k, v) { assert Connected(s, k, v) <==> IsSocketOf(s, k, v); }
    forall k, ch ensures (InRoom(t, k, ch) <==> HasJoined(t, k, ch)) && (HasJoined(t, k, ch) ==> IsAuthenticated(t, k)) {
      assert InRoom(s, k, ch) <==> HasJoined(s, k, ch);
      assert HasJoined(s, k, ch) ==> IsAuthenticated(s, k);
    }
    assert forall k :: Receives(t, k) ==> Receives(s, k) && t.sockets[k] == s.sockets[k];
    forall v ensures ConnectionCount(t, v) <= ConnectionCount(s, v) {
      if v == u { assert s.userConnections[u] - {ws} <= s.userConnections[u]; }
    }
  }

  lemma DisconnectedFits(t: State, u: Id)
    requires RegistryFits(t) && ViewsAre(t, AllStatuses(t.presenceByUser), {})
    ensures var t' := Disconnected(t, u);
      && SameButViews(t, t') && ViewsAre(t', AllStatuses(t'.presenceByUser), {})
      && t'.presenceByUser.Keys == t.presenceByUser.Keys - (if ConnectionCount(t, u) > 0 then {} else {u})
  {
    hide Told, RegistryFits, Receives;
    if ConnectionCount(t, u) == 0 {
      var t1 := t.(presenceByUser := t.presenceByUser - {u});
      SameKeeps(t, t1);
      ToldFolds(t1, u, None, AllStatuses(t.presenceByUser), {});
      assert AllStatuses(t1.presenceByUser) == Folded(AllStatuses(t.presenceByUser), u, None);
    }
  }

  lemma CloseKeeps(s: State, ws: Id, c: Settings)
    requires Invariant(s, c) && IsLive(s, ws)
    ensures Invariant(DoCloseEvent(s, ws), c)
  {
    hide RegistryFits, RoomsFit, ViewsAre, SameButViews, Disconnected, Receives, Unregistered, Left;
    if !s.sockets[ws].authenticated {
      StrangerCloses(s, ws, c);
    } else {
      var u := s.sockets[ws].userId;
      var t := Unregistered(Left(SetPhase(s, ws, Closed), s.sockets[ws].joinedChannels, ws), u, ws);
      GoneFits(s, ws, u, c);
      DisconnectedFits(t, u);
      SameKeeps(t, Disconnected(t, u));
      SameConnections(t, Disconnected(t, u));
      UserKnown(s, s, ws, u);
    }
  }

  lemma NextKeeps(s: State, step: Step, c: Settings)
    requires Invariant(s, c)
    ensures Invariant(Next(s, step, c), c)
  {
    hide Invariant;
    match step
    case Connect(ws) => if ws !in s.sockets { ConnectKeeps(s, ws, c); }
    case Authenticate(ws, u, accepted, now) => if IsLive(s, ws) { AuthenticateKeeps(s, ws, u, accepted, now, c); }
    case Join(ws, ch, isMember) => if IsAuthenticated(s, ws) && isMember { JoinKeeps(s, ws, ch, c); }
    case Leave(ws, ch) => if IsAuthenticated(s, ws) { LeaveKeeps(s, ws, {ch}, c); }
    case Heartbeat(ws, now) => if IsAuthenticated(s, ws) { HeartbeatKeeps(s, ws, now, c); }
    case Sweep(now) => SweepKeeps(s, now, c);
    case StartClose(ws) => if IsLive(s, ws) { ClosesKeeps(s, ws, c); }
    case CloseEvent(ws) => if IsLive(s, ws) { CloseKeeps(s, ws, c); }
  }

  lemma {:induction false} RunKeeps(steps: seq<Step>, c: Settings)
    ensures Invariant(Run(steps, c), c)
  {
    hide Next, Invariant;
    if steps != [] {
      RunKeeps(steps[..|steps| - 1], c);
      NextKeeps(Run(steps[..|steps| - 1], c), steps[|steps| - 1], c);
    } else {
      EmptyFits(c);
    }
  }

  lemma EmptyFits(c: Settings)
    ensures Invariant(EMPTY, c)
  {
  }

  /** Every client that folds the frames it was sent sees the server's own statuses. */
  lemma ViewsAreFaithful(steps: seq<Step>, c: Settings, ws: Id)
    requires Receives(Run(steps, c), ws)
    ensures Run(steps, c).sockets[ws].view == AllStatuses(Run(steps, c).presenceByUser)
  {
    RunKeeps(steps, c);
    hide AllStatuses, RegistryFits, RoomsFit;
  }

  /** A user has presence exactly while a socket of theirs is connected, never more
      sockets than the cap, and rooms and joinedChannels agree. */
  lemma RegistryIsExact(steps: seq<Step>, c: Settings, u: Id, ws: Id, ch: Id)
    ensures var s := Run(steps, c);
      && (u in s.presenceByUser <==> exists k :: IsSocketOf(s, k, u))
      && ConnectionCount(s, u) <= c.maxConnectionsPerUser
      && (InRoom(s, ws, ch) <==> HasJoined(s, ws, ch)) && (InRoom(s, ws, ch) ==> IsAuthenticated(s, ws))
  {
    RunKeeps(steps, c);
    var s := Run(steps, c);
    hide Run, AllStatuses, ViewsAre;
    if u in s.userConnections {
      var k :| k in s.userConnections[u];
      assert Connected(s, k, u) && IsSocketOf(s, k, u);
    }
    if k :| IsSocketOf(s, k, u) { assert Connected(s, k, u); }
  }
}
