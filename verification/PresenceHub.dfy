/** The in-memory maps of the WebSocket server and the functions that update them in place. */
module PresenceHub {
  import opened JsText
  import opened Presence

  /** One more user of the sweep, who is stale: away, then everybody told. */
  lemma SweptStale(s: State, done: set<Id>, u: Id, now: int, c: Settings)
    requires u in s.presenceByUser && u !in done && IsStale(s.presenceByUser[u], now, c)
    ensures var t := Swept(s, done, now, c);
      && t.presenceByUser[u] == s.presenceByUser[u]
      && Swept(s, done + {u}, now, c) ==
           Told(t.(presenceByUser := t.presenceByUser[u := t.presenceByUser[u].(status := Away)]), u, Some(Away))
  {
    hide IsStale, IsRegistered;
    var t, more := Swept(s, done, now, c), Swept(s, done + {u}, now, c);
    var told := Told(t.(presenceByUser := t.presenceByUser[u := t.presenceByUser[u].(status := Away)]), u, Some(Away));
    forall ws | ws in s.sockets ensures more.sockets[ws] == told.sockets[ws] {
      SweptViewMore(s.sockets[ws].view, s.presenceByUser, done, u, now, c);
    }
    assert more.sockets == told.sockets && more.presenceByUser == told.presenceByUser;
  }

  lemma SweptFresh(s: State, done: set<Id>, u: Id, now: int, c: Settings)
    requires u in s.presenceByUser && u !in done && !IsStale(s.presenceByUser[u], now, c)
    ensures Swept(s, done + {u}, now, c) == Swept(s, done, now, c)
    ensures Swept(s, done, now, c).presenceByUser[u] == s.presenceByUser[u]
  {
    hide IsStale, IsRegistered;
    var t, more := Swept(s, done, now, c), Swept(s, done + {u}, now, c);
    forall ws | ws in s.sockets ensures more.sockets[ws] == t.sockets[ws] {
      SweptViewMore(s.sockets[ws].view, s.presenceByUser, done, u, now, c);
    }
    assert more.sockets == t.sockets && more.presenceByUser == t.presenceByUser;
  }

  lemma SweptViewMore(view: map<Id, Status>, presence: map<Id, Entry>, done: set<Id>, u: Id, now: int, c: Settings)
    requires u in presence
    ensures SweptView(view, presence, done + {u}, now, c) ==
            if IsStale(presence[u], now, c) then SweptView(view, presence, done, now, c)[u := Away]
            else SweptView(view, presence, done, now, c)
  {
    hide IsStale;
  }

  lemma SweptNone(s: State, now: int, c: Settings)
    ensures Swept(s, {}, now, c) == s
  {
    hide IsStale, IsRegistered;
    var t := Swept(s, {}, now, c);
    forall ws | ws in s.sockets ensures t.sockets[ws] == s.sockets[ws] {
      assert SweptView(s.sockets[ws].view, s.presenceByUser, {}, now, c) == s.sockets[ws].view;
    }
    assert t.sockets == s.sockets && t.presenceByUser == s.presenceByUser;
  }

  lemma LeftMore(s: State, done: set<Id>, ch: Id, ws: Id)
    requires ws in s.sockets
    ensures Left(Left(s, done, ws), {ch}, ws) == Left(s, done + {ch}, ws)
  {
    var a, b := Left(Left(s, done, ws), {ch}, ws), Left(s, done + {ch}, ws);
    assert a.sockets[ws].joinedChannels == b.sockets[ws].joinedChannels;
    RoomsLeftMore(s.channelRooms, done, ch, ws);
  }

  lemma RoomsLeftMore(rooms: map<Id, set<Id>>, done: set<Id>, ch: Id, ws: Id)
    ensures RoomsLeft(RoomsLeft(rooms, done, ws), {ch}, ws) == RoomsLeft(rooms, done + {ch}, ws)
  {
    var a, b := RoomsLeft(RoomsLeft(rooms, done, ws), {ch}, ws), RoomsLeft(rooms, done + {ch}, ws);
    forall h | h in rooms ensures (h in a <==> h in b) && (h in a ==> a[h] == b[h]) {
      assert rooms[h] - {ws} - {ws} == rooms[h] - {ws};
    }
    assert a.Keys == b.Keys;
  }

  lemma LeftNone(s: State, ws: Id)
    requires ws in s.sockets
    ensures Left(s, {}, ws) == s
  {
    assert s.sockets[ws].joinedChannels - {} == s.sockets[ws].joinedChannels;
    assert RoomsLeft(s.channelRooms, {}, ws) == s.channelRooms;
  }

  /** The frame handed to those of `to` that are OPEN. */
  function Delivered(sockets: map<Id, Socket>, to: set<Id>, u: Id, status: Option<Status>): map<Id, Socket> {
    map ws | ws in sockets ::
      if ws in to && sockets[ws].phase == Open then sockets[ws].(view := Folded(sockets[ws].view, u, status)) else sockets[ws]
  }

  lemma DeliveredNone(sockets: map<Id, Socket>, u: Id, status: Option<Status>)
    ensures Delivered(sockets, {}, u, status) == sockets
  {
  }

  lemma DeliveredMore(sockets: map<Id, Socket>, done: set<Id>, ws: Id, u: Id, status: Option<Status>)
    requires ws !in done
    ensures var before := Delivered(sockets, done, u, status);
      Delivered(sockets, done + {ws}, u, status) ==
      if ws in before && before[ws].phase == Open
      then before[ws := before[ws].(view := Folded(before[ws].view, u, status))] else before
  {
    hide Folded;
  }

  lemma DeliveredAll(s: State, registered: set<Id>, u: Id, status: Option<Status>)
    requires forall ws :: ws in registered <==> IsRegistered(s.userConnections, ws)
    ensures s.(sockets := Delivered(s.sockets, registered, u, status)) == Told(s, u, status)
  {
  }

  class Hub {
    const settings: Settings
    var sockets: map<Id, Socket>
    var userConnections: map<Id, set<Id>>
    var channelRooms: map<Id, set<Id>>
    var presenceByUser: map<Id, Entry>

    function Value(): State
      reads this
    {
      State(sockets, userConnections, channelRooms, presenceByUser)
    }

    constructor (settings: Settings)
      ensures Value() == EMPTY && this.settings == settings
    {
      this.settings := settings;
      sockets, userConnections, channelRooms, presenceByUser := map[], map[], map[], map[];
    }

    method RegisterConnection(u: Id, ws: Id)
      modifies this`userConnections
      ensures Value() == Registered(old(Value()), u, ws)
    {
      if u !in userConnections { userConnections := userConnections[u := {}]; }
      userConnections := userConnections[u := userConnections[u] + {ws}];
    }

    method UnregisterConnection(u: Id, ws: Id)
      modifies this`userConnections
      ensures Value() == Unregistered(old(Value()), u, ws)
    {
      if u !in userConnections { return; }
      userConnections := userConnections[u := userConnections[u] - {ws}];
      if userConnections[u] == {} {
        userConnections := userConnections - {u};
        assert userConnections == old(userConnections) - {u};
      }
    }

    method JoinRoom(ch: Id, ws: Id)
      requires ws in sockets
      modifies this`channelRooms, this`sockets
      ensures Value() == Joined(old(Value()), ch, ws)
    {
      if ch !in channelRooms { channelRooms := channelRooms[ch := {}]; }
      channelRooms := channelRooms[ch := channelRooms[ch] + {ws}];
      sockets := sockets[ws := sockets[ws].(joinedChannels := sockets[ws].joinedChannels + {ch})];
    }

    method LeaveRoom(ch: Id, ws: Id)
      requires ws in sockets
      modifies this`channelRooms, this`sockets
      ensures Value() == Left(old(Value()), {ch}, ws)
    {
      if ch in channelRooms {
        channelRooms := channelRooms[ch := channelRooms[ch] - {ws}];
        if channelRooms[ch] == {} { channelRooms := channelRooms - {ch}; }
      }
      sockets := sockets[ws := sockets[ws].(joinedChannels := sockets[ws].joinedChannels - {ch})];
      assert channelRooms == RoomsLeft(old(channelRooms), {ch}, ws);
    }

    method LeaveAllRooms(ws: Id)
      requires ws in sockets
      modifies this`channelRooms, this`sockets
      ensures Value() == Left(old(Value()), old(sockets[ws].joinedChannels), ws)
    {
      hide Left;
      var copy := sockets[ws].joinedChannels;
      var rest := copy;
      LeftNone(Value(), ws);
      assert copy - copy == {};
      while rest != {}
        invariant rest <= copy && ws in sockets
        invariant Value() == Left(old(Value()), copy - rest, ws)
        decreases |rest|
      {
        var ch :| ch in rest;
        LeftMore(old(Value()), copy - rest, ch, ws);
        assert copy - (rest - {ch}) == copy - rest + {ch};
        LeaveRoom(ch, ws);
        KeepsSocket(ch, ws);
        rest := rest - {ch};
      }
      assert copy - {} == copy;
    }

    lemma KeepsSocket(ch: Id, ws: Id)
      requires exists s: State :: ws in s.sockets && Value() == Left(s, {ch}, ws)
      ensures ws in sockets
    {
    }

    /** A presence_update frame to every registered socket that is OPEN. */
    method BroadcastPresence(u: Id, status: Option<Status>)
      modifies this`sockets
      ensures Value() == Told(old(Value()), u, status)
    {
      var registered := set v, ws | v in userConnections && ws in userConnections[v] :: ws;
      var rest := registered;
      assert registered - registered == {};
      DeliveredNone(sockets, u, status);
      while rest != {}
        invariant rest <= registered
        invariant sockets == Delivered(old(sockets), registered - rest, u, status)
        decreases |rest|
      {
        var ws :| ws in rest;
        DeliveredMore(old(sockets), registered - rest, ws, u, status);
        assert registered - (rest - {ws}) == registered - rest + {ws};
        if ws in sockets && sockets[ws].phase == Open {
          sockets := sockets[ws := sockets[ws].(view := Folded(sockets[ws].view, u, status))];
        }
        rest := rest - {ws};
      }
      assert registered - {} == registered;
      assert forall ws :: ws in registered <==> IsRegistered(userConnections, ws);
      DeliveredAll(old(Value()), registered, u, status);
    }

    method RecordHeartbeat(u: Id, now: int)
      modifies this`presenceByUser, this`sockets
      ensures Value() == Beaten(old(Value()), u, now)
    {
      hide Told;
      var existing := if u in presenceByUser then Some(presenceByUser[u]) else None;
      presenceByUser := presenceByUser[u := Entry(now, Online)];
      if existing.None? || existing.value.status != Online { BroadcastPresence(u, Some(Online)); }
    }

    method HandleDisconnect(u: Id)
      modifies this`presenceByUser, this`sockets
      ensures Value() == Disconnected(old(Value()), u)
    {
      hide Told;
      if ConnectionCount(Value(), u) > 0 { return; }
      presenceByUser := presenceByUser - {u};
      BroadcastPresence(u, None);
    }

    method SweepStalePresence(now: int)
      modifies this`presenceByUser, this`sockets
      ensures Value() == Swept(old(Value()), old(presenceByUser).Keys, now, settings)
    {
      hide Told, Swept;
      var users := presenceByUser.Keys;
      var rest := users;
      SweptNone(Value(), now, settings);
      assert users - users == {};
      while rest != {}
        invariant rest <= users == old(presenceByUser).Keys
        invariant Value() == Swept(old(Value()), users - rest, now, settings)
        decreases |rest|
      {
        var u :| u in rest;
        if IsStale(old(presenceByUser)[u], now, settings) {
          SweptStale(old(Value()), users - rest, u, now, settings);
        } else {
          SweptFresh(old(Value()), users - rest, u, now, settings);
        }
        assert users - (rest - {u}) == users - rest + {u};
        SweptKeys(old(Value()), users - rest, now, settings);
        var entry := presenceByUser[u];
        if IsStale(entry, now, settings) {
          presenceByUser := presenceByUser[u := entry.(status := Away)];
          BroadcastPresence(u, Some(Away));
        }
        rest := rest - {u};
      }
      assert users - {} == users;
    }

    method OnAuthenticate(ws: Id, u: Id, accepted: bool, now: int)
      requires IsLive(Value(), ws)
      modifies this
      ensures Value() == Next(old(Value()), Authenticate(ws, u, accepted, now), settings)
    {
      hide Beaten;
      if !accepted || (sockets[ws].authenticated && sockets[ws].userId != u) {
        CloseSocket(ws);
        return;
      }
      var isReauth := sockets[ws].authenticated;
      if !isReauth {
        if ConnectionCount(Value(), u) >= settings.maxConnectionsPerUser {
          CloseSocket(ws);
          return;
        }
        RegisterConnection(u, ws);
      }
      sockets := sockets[ws := sockets[ws].(authenticated := true, userId := u)];
      RecordHeartbeat(u, now);
      if ws in sockets && sockets[ws].phase == Open {
        sockets := sockets[ws := sockets[ws].(view := AllStatuses(presenceByUser))];
      }
    }

    method CloseSocket(ws: Id)
      requires ws in sockets
      modifies this`sockets
      ensures Value() == Closes(old(Value()), ws)
    {
      if sockets[ws].phase == Open { sockets := sockets[ws := sockets[ws].(phase := Closing)]; }
    }

    method OnClose(ws: Id)
      requires IsLive(Value(), ws)
      modifies this
      ensures Value() == Next(old(Value()), CloseEvent(ws), settings)
    {
      hide Disconnected, Unregistered;
      var authenticated, u := sockets[ws].authenticated, sockets[ws].userId;
      sockets := sockets[ws := sockets[ws].(phase := Closed)];
      if authenticated {
        LeaveAllRooms(ws);
        UnregisterConnection(u, ws);
        HandleDisconnect(u);
      }
    }
  }

  lemma SweptKeys(s: State, us: set<Id>, now: int, c: Settings)
    ensures Swept(s, us, now, c).presenceByUser.Keys == s.presenceByUser.Keys
  {
  }
}
