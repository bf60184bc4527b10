/** The two frame handlers that wait for the database, and sockets that close meanwhile:
    what the rest of the handler does to the registry, the rooms and presence then. */
module PresenceAwaits {
  import opened JsText
  import opened Presence
  import opened PresenceRuns

  /** A frame that is handled at once, or what follows the await of an `authenticate` or a
      `join` frame, by then perhaps on a closed socket. */
  datatype Event =
    | Frame(step: Step)
    | FinishAuthenticate(ws: Id, userId: Id, accepted: bool, now: int)
    | FinishJoin(ws: Id, channelId: Id)

  function After(s: State, e: Event, c: Settings): State {
    match e
    case Frame(step) => Next(s, step, c)
    case FinishAuthenticate(ws, u, accepted, now) => if ws in s.sockets then DoAuthenticate(s, ws, u, accepted, now, c) else s
    case FinishJoin(ws, ch) => if ws in s.sockets && s.sockets[ws].authenticated then Joined(s, ch, ws) else s
  }

  function RunAll(events: seq<Event>, c: Settings): State {
    if events == [] then EMPTY else After(RunAll(events[..|events| - 1], c), events[|events| - 1], c)
  }

  predicate HasClosed(s: State, ws: Id) { ws in s.sockets && s.sockets[ws].phase == Closed }

  /** The handler goes on as if the socket were there: it registers the socket, or beats
      for a user who has no connection left, or joins a room. */
  predicate IsTooLate(s: State, e: Event, c: Settings) {
    match e
    case Frame(_) => false
    case FinishAuthenticate(ws, u, accepted, _) =>
      HasClosed(s, ws) && accepted &&
      (if s.sockets[ws].authenticated then s.sockets[ws].userId == u && u !in s.userConnections
       else ConnectionCount(s, u) < c.maxConnectionsPerUser)
    case FinishJoin(ws, _) => HasClosed(s, ws) && s.sockets[ws].authenticated
  }

  // ------------------------------------------------------------- the exact condition

  /** A heartbeat and a snapshot touch no connection and no room, and open no socket. */
  lemma BeatLeaves(s: State, u: Id, now: int, ws: Id)
    ensures var t := Snapshot(Beaten(s, u, now), ws);
      SameButViews(s, t) && t.presenceByUser.Keys == s.presenceByUser.Keys + {u}
  {
    var t := Beaten(s, u, now);
    BeatenLeaves(s, u, now);
    hide Beaten;
    SnapshotLeaves(t, ws);
    hide Snapshot;
    forall k | k in s.sockets ensures Snapshot(t, ws).sockets[k].(view := map[]) == s.sockets[k].(view := map[]) {
      assert t.sockets[k].(view := map[]) == s.sockets[k].(view := map[]);
    }
  }

  lemma SnapshotLeaves(s: State, ws: Id)
    ensures SameButViews(s, Snapshot(s, ws)) && Snapshot(s, ws).presenceByUser == s.presenceByUser
  {
    hide AllStatuses;
  }

  lemma BeatenLeaves(s: State, u: Id, now: int)
    ensures SameButViews(s, Beaten(s, u, now)) && Beaten(s, u, now).presenceByUser.Keys == s.presenceByUser.Keys + {u}
  {
    hide Told;
    var s' := s.(presenceByUser := s.presenceByUser[u := Entry(now, Online)]);
    ToldLeaves(s', u, Some(Online));
  }

  lemma ToldLeaves(s: State, u: Id, status: Option<Status>)
    ensures SameButViews(s, Told(s, u, status)) && Told(s, u, status).presenceByUser == s.presenceByUser
  {
    hide Folded;
  }

  lemma LateRegistration(s: State, ws: Id, u: Id, now: int, c: Settings)
    requires HasClosed(s, ws) && !s.sockets[ws].authenticated && ConnectionCount(s, u) < c.maxConnectionsPerUser
    ensures var t := DoAuthenticate(s, ws, u, true, now, c);
      Connected(t, ws, u) && HasClosed(t, ws) && u in t.presenceByUser && !Invariant(t, c)
  {
    var s2 := Registered(s, u, ws).(sockets := s.sockets[ws := s.sockets[ws].(authenticated := true, userId := u)]);
    BeatLeaves(s2, u, now, ws);
    hide Beaten, Snapshot;
    var t := DoAuthenticate(s, ws, u, true, now, c);
    assert t.sockets[ws].(view := map[]) == s2.sockets[ws].(view := map[]);
    assert Connected(t, ws, u) && !IsSocketOf(t, ws, u);
  }

  lemma LateBeat(s: State, ws: Id, u: Id, now: int, c: Settings)
    requires Invariant(s, c) && HasClosed(s, ws) && s.sockets[ws].authenticated && s.sockets[ws].userId == u
    ensures Invariant(DoAuthenticate(s, ws, u, true, now, c), c) <==> u in s.userConnections
  {
    var t := DoAuthenticate(s, ws, u, true, now, c);
    assert s.(sockets := s.sockets[ws := s.sockets[ws].(authenticated := true, userId := u)]) == s;
    BeatLeaves(s, u, now, ws);
    if u in s.userConnections {
      hide RegistryFits, RoomsFit, ViewsAre, Beaten, Receives, SameButViews;
      BeatenFits(s, u, now, {});
      SameKeeps(s, Beaten(s, u, now));
      assert Beaten(s, u, now).sockets[ws].phase == Closed by { BeatenClosed(s, u, now, ws); }
      assert t == Beaten(s, u, now);
      assert s.presenceByUser.Keys + {u} == s.presenceByUser.Keys;
    }
  }

  lemma BeatenClosed(s: State, u: Id, now: int, ws: Id)
    requires HasClosed(s, ws)
    ensures HasClosed(Beaten(s, u, now), ws)
  {
  }

  lemma LateJoin(s: State, ws: Id, ch: Id, c: Settings)
    requires HasClosed(s, ws)
    ensures InRoom(Joined(s, ch, ws), ws, ch) && !Invariant(Joined(s, ch, ws), c)
  {
    assert HasJoined(Joined(s, ch, ws), ws, ch) && !IsAuthenticated(Joined(s, ch, ws), ws);
  }

  /** What any event leaves is exact if and only if it is no such late one. */
  lemma AfterExactly(s: State, e: Event, c: Settings)
    requires Invariant(s, c)
    ensures Invariant(After(s, e, c), c) <==> !IsTooLate(s, e, c)
  {
    hide Invariant, Next, DoAuthenticate, Joined;
    match e
    case Frame(step) => NextKeeps(s, step, c);
    case FinishAuthenticate(ws, u, accepted, now) =>
      if IsLive(s, ws) { AuthenticateKeeps(s, ws, u, accepted, now, c); }
      else if ws in s.sockets { LateAuthenticate(s, ws, u, accepted, now, c); }
    case FinishJoin(ws, ch) =>
      if IsAuthenticated(s, ws) { JoinKeeps(s, ws, ch, c); } else if HasClosed(s, ws) { LateJoin(s, ws, ch, c); }
  }

  lemma LateAuthenticate(s: State, ws: Id, u: Id, accepted: bool, now: int, c: Settings)
    requires Invariant(s, c) && HasClosed(s, ws)
    ensures Invariant(DoAuthenticate(s, ws, u, accepted, now, c), c) <==> !IsTooLate(s, FinishAuthenticate(ws, u, accepted, now), c)
  {
    hide Invariant, Beaten, Snapshot, Registered;
    var sock := s.sockets[ws];
    if !accepted || (sock.authenticated && sock.userId != u) {
    } else if sock.authenticated {
      LateBeat(s, ws, u, now, c);
    } else if ConnectionCount(s, u) < c.maxConnectionsPerUser {
      LateRegistration(s, ws, u, now, c);
    }
  }

  // ------------------------------------------------------------------ whole runs

  /** After every event of the run. */
  ghost predicate AlwaysExact(events: seq<Event>, c: Settings) {
    Invariant(RunAll(events, c), c) && (events == [] || AlwaysExact(events[..|events| - 1], c))
  }

  predicate NeverTooLate(events: seq<Event>, c: Settings) {
    events == [] ||
    (var before := events[..|events| - 1];
     NeverTooLate(before, c) && !IsTooLate(RunAll(before, c), events[|events| - 1], c))
  }

  /** In any run registry, cap, rooms, presence and views are exact at every moment if and
      only if no handler goes on too late. */
  lemma {:induction false} ExactIffNeverTooLate(events: seq<Event>, c: Settings)
    ensures AlwaysExact(events, c) <==> NeverTooLate(events, c)
  {
    hide Invariant, After, IsTooLate;
    if events == [] {
      EmptyFits(c);
    } else {
      var before := events[..|events| - 1];
      ExactIffNeverTooLate(before, c);
      if Invariant(RunAll(before, c), c) { AfterExactly(RunAll(before, c), events[|events| - 1], c); }
    }
  }

  // --------------------------------------------------------------- for good

  /** A closed socket in the registry: its user is never shown offline again. */
  predicate IsGhost(s: State, ws: Id, u: Id) { Connected(s, ws, u) && HasClosed(s, ws) && u in s.presenceByUser }

  lemma GhostStaysBeaten(s: State, v: Id, now: int, k: Id, ws: Id, u: Id)
    requires IsGhost(s, ws, u)
    ensures IsGhost(Snapshot(Beaten(s, v, now), k), ws, u) && IsGhost(Beaten(s, v, now), ws, u)
  {
    hide AllStatuses, Folded;
  }

  lemma GhostStaysClose(s: State, k: Id, ws: Id, u: Id)
    requires IsGhost(s, ws, u) && IsLive(s, k)
    ensures IsGhost(DoCloseEvent(s, k), ws, u)
  {
    hide Told, Left;
    var s1 := SetPhase(s, k, Closed);
    if s.sockets[k].authenticated {
      var v := s.sockets[k].userId;
      var t := Unregistered(Left(s1, s.sockets[k].joinedChannels, k), v, k);
      assert IsGhost(t, ws, u) by { GhostStaysGone(s1, s.sockets[k].joinedChannels, v, k, ws, u); }
      GhostStaysDisconnect(t, v, ws, u);
      hide Disconnected, Unregistered;
    }
  }

  lemma GhostStaysGone(s: State, chs: set<Id>, v: Id, k: Id, ws: Id, u: Id)
    requires IsGhost(s, ws, u) && k in s.sockets && k != ws
    ensures IsGhost(Unregistered(Left(s, chs, k), v, k), ws, u)
  {
    hide RoomsLeft;
    assert v == u ==> ws in s.userConnections[v] - {k};
  }

  lemma GhostStaysDisconnect(s: State, v: Id, ws: Id, u: Id)
    requires IsGhost(s, ws, u)
    ensures IsGhost(Disconnected(s, v), ws, u)
  {
    hide Folded;
  }

  lemma GhostStaysAuthenticate(s: State, k: Id, v: Id, accepted: bool, now: int, c: Settings, ws: Id, u: Id)
    requires IsGhost(s, ws, u) && k in s.sockets
    ensures IsGhost(DoAuthenticate(s, k, v, accepted, now, c), ws, u)
  {
    hide Beaten, Snapshot;
    var sock := s.sockets[k];
    var s2 := (if sock.authenticated then s else Registered(s, v, k)).(sockets := s.sockets[k := sock.(authenticated := true, userId := v)]);
    assert IsGhost(s2, ws, u);
    GhostStaysBeaten(s2, v, now, k, ws, u);
  }

  lemma GhostStaysSwept(s: State, now: int, c: Settings, ws: Id, u: Id)
    requires IsGhost(s, ws, u)
    ensures IsGhost(Swept(s, s.presenceByUser.Keys, now, c), ws, u)
  {
    hide SweptView;
  }

  lemma GhostStays(s: State, e: Event, c: Settings, ws: Id, u: Id)
    requires IsGhost(s, ws, u)
    ensures IsGhost(After(s, e, c), ws, u)
  {
    hide DoAuthenticate, DoCloseEvent, Beaten, Swept, RoomsLeft;
    match e
    case FinishAuthenticate(k, v, accepted, now) => if k in s.sockets { GhostStaysAuthenticate(s, k, v, accepted, now, c, ws, u); }
    case FinishJoin(k, ch) =>
    case Frame(step) =>
      match step
      case Authenticate(k, v, accepted, now) => if IsLive(s, k) { GhostStaysAuthenticate(s, k, v, accepted, now, c, ws, u); }
      case CloseEvent(k) => if IsLive(s, k) { GhostStaysClose(s, k, ws, u); }
      case Heartbeat(k, now) => if IsAuthenticated(s, k) { GhostStaysBeaten(s, s.sockets[k].userId, now, k, ws, u); }
      case Sweep(now) => GhostStaysSwept(s, now, c, ws, u);
      case _ =>
  }

  /** A socket that closes before its authentication goes on is connected for good: in every
      run from there it counts against the cap and its user has presence. */
  lemma {:induction false} GhostForGood(before: seq<Event>, more: seq<Event>, c: Settings, ws: Id, u: Id)
    requires IsGhost(RunAll(before, c), ws, u)
    ensures IsGhost(RunAll(before + more, c), ws, u)
    decreases |more|
  {
    hide After, IsGhost;
    var all := before + more;
    if more == [] {
      assert all == before;
    } else {
      var n := |more| - 1;
      GhostForGood(before, more[..n], c, ws, u);
      assert all[..|all| - 1] == before + more[..n];
      GhostStays(RunAll(before + more[..n], c), all[|all| - 1], c, ws, u);
    }
  }

  /** From the start: a socket connects, its authentication waits, it closes, and then the
      authentication goes on. */
  lemma GhostReachable(ws: Id, u: Id, now: int, c: Settings)
    requires c.maxConnectionsPerUser >= 1
    ensures var events := [Frame(Step.Connect(ws)), Frame(Step.CloseEvent(ws)), FinishAuthenticate(ws, u, true, now)];
      IsGhost(RunAll(events, c), ws, u)
  {
    var events := [Frame(Step.Connect(ws)), Frame(Step.CloseEvent(ws)), FinishAuthenticate(ws, u, true, now)];
    assert events[..0] == [] && events[..1][..0] == [] && events[..2][..1] == events[..1] && events[..3] == events;
    var s := RunAll(events[..2], c);
    assert RunAll(events[..1], c) == EMPTY.(sockets := map[ws := Socket(Open, false, 0, {}, map[])]);
    assert HasClosed(s, ws) && !s.sockets[ws].authenticated && s.userConnections == map[];
    LateRegistration(s, ws, u, now, c);
    hide DoAuthenticate, Next;
  }
}
