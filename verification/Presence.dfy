/** Sockets, rooms and presence of the WebSocket server, each frame handler one atomic
    step: what a client that folds its presence frames knows, over whole runs. */
module Presence {
  import opened JsText

  type Id = nat

  datatype Status = Online | Away

  datatype Entry = Entry(lastHeartbeat: int, status: Status)

  /** `Closing` is a readyState other than OPEN before the close event, `Closed` after it. */
  datatype Phase = Open | Closing | Closed

  /** `view` is history: the socket's last snapshot with the presence_update frames it
      was sent since folded in. */
  datatype Socket = Socket(phase: Phase, authenticated: bool, userId: Id, joinedChannels: set<Id>, view: map<Id, Status>)

  datatype State = State(
    sockets: map<Id, Socket>, userConnections: map<Id, set<Id>>, channelRooms: map<Id, set<Id>>, presenceByUser: map<Id, Entry>)

  const EMPTY := State(map[], map[], map[], map[])

  datatype Settings = Settings(maxConnectionsPerUser: nat, presenceStaleMs: int)

  function AllStatuses(presence: map<Id, Entry>): map<Id, Status> {
    map u | u in presence :: presence[u].status
  }

  // ------------------------------------------------------------------ registry

  function ConnectionCount(s: State, u: Id): nat {
    if u in s.userConnections then |s.userConnections[u]| else 0
  }

  predicate IsRegistered(connections: map<Id, set<Id>>, ws: Id) {
    exists u :: u in connections && ws in connections[u]
  }

  function Registered(s: State, u: Id, ws: Id): State {
    s.(userConnections := s.userConnections[u := (if u in s.userConnections then s.userConnections[u] else {}) + {ws}])
  }

  function Unregistered(s: State, u: Id, ws: Id): State {
    if u !in s.userConnections then s else
    var set_ := s.userConnections[u] - {ws};
    s.(userConnections := if set_ == {} then s.userConnections - {u} else s.userConnections[u := set_])
  }

  function Joined(s: State, ch: Id, ws: Id): State
    requires ws in s.sockets
  {
    s.(channelRooms := s.channelRooms[ch := (if ch in s.channelRooms then s.channelRooms[ch] else {}) + {ws}],
       sockets := s.sockets[ws := s.sockets[ws].(joinedChannels := s.sockets[ws].joinedChannels + {ch})])
  }

  /** The rooms once `ws` has left those in `chs`; an empty room goes. */
  function RoomsLeft(rooms: map<Id, set<Id>>, chs: set<Id>, ws: Id): map<Id, set<Id>> {
    map ch | ch in rooms && (ch in chs ==> rooms[ch] - {ws} != {}) :: if ch in chs then rooms[ch] - {ws} else rooms[ch]
  }

  function Left(s: State, chs: set<Id>, ws: Id): State
    requires ws in s.sockets
  {
    s.(channelRooms := RoomsLeft(s.channelRooms, chs, ws),
       sockets := s.sockets[ws := s.sockets[ws].(joinedChannels := s.sockets[ws].joinedChannels - chs)])
  }

  // ------------------------------------------------------------------ presence

  /** A client's view after a presence_update frame; `None` is offline. */
  function Folded(view: map<Id, Status>, u: Id, status: Option<Status>): map<Id, Status> {
    match status
    case Some(st) => view[u := st]
    case None => view - {u}
  }

  /** A presence_update to every registered socket whose readyState is OPEN. */
  function Told(s: State, u: Id, status: Option<Status>): State {
    s.(sockets := map ws | ws in s.sockets ::
      if s.sockets[ws].phase == Open && IsRegistered(s.userConnections, ws)
      then s.sockets[ws].(view := Folded(s.sockets[ws].view, u, status)) else s.sockets[ws])
  }

  function Beaten(s: State, u: Id, now: int): State {
    var s' := s.(presenceByUser := s.presenceByUser[u := Entry(now, Online)]);
    if u in s.presenceByUser && s.presenceByUser[u].status == Online then s' else Told(s', u, Some(Online))
  }

  function Disconnected(s: State, u: Id): State {
    if ConnectionCount(s, u) > 0 then s else Told(s.(presenceByUser := s.presenceByUser - {u}), u, None)
  }

  predicate IsStale(e: Entry, now: int, c: Settings) { e.status == Online && now - e.lastHeartbeat > c.presenceStaleMs }

  /** The sweep over the users `us`: each stale one goes away and everybody is told. */
  function Swept(s: State, us: set<Id>, now: int, c: Settings): State {
    s.(presenceByUser := map u | u in s.presenceByUser ::
         if u in us && IsStale(s.presenceByUser[u], now, c) then s.presenceByUser[u].(status := Away) else s.presenceByUser[u],
       sockets := map ws | ws in s.sockets ::
         if s.sockets[ws].phase == Open && IsRegistered(s.userConnections, ws)
         then s.sockets[ws].(view := SweptView(s.sockets[ws].view, s.presenceByUser, us, now, c)) else s.sockets[ws])
  }

  function SweptView(view: map<Id, Status>, presence: map<Id, Entry>, us: set<Id>, now: int, c: Settings): map<Id, Status> {
    map u | u in view.Keys + presence.Keys && (u in view || (u in us && IsStale(presence[u], now, c))) ::
      if u in us && u in presence && IsStale(presence[u], now, c) then Away else view[u]
  }

  // ------------------------------------------------------------------ handlers

  datatype Step =
    | Connect(ws: Id)
    | Authenticate(ws: Id, userId: Id, accepted: bool, now: int)
    | Join(ws: Id, channelId: Id, isMember: bool)
    | Leave(ws: Id, channelId: Id)
    | Heartbeat(ws: Id, now: int)
    | Sweep(now: int)
    | StartClose(ws: Id)
    | CloseEvent(ws: Id)

  predicate IsLive(s: State, ws: Id) { ws in s.sockets && s.sockets[ws].phase != Closed }

  predicate IsAuthenticated(s: State, ws: Id) { IsLive(s, ws) && s.sockets[ws].authenticated }

  function SetPhase(s: State, ws: Id, phase: Phase): State
    requires ws in s.sockets
  {
    s.(sockets := s.sockets[ws := s.sockets[ws].(phase := phase)])
  }

  function Closes(s: State, ws: Id): State
    requires ws in s.sockets
  {
    if s.sockets[ws].phase == Open then SetPhase(s, ws, Closing) else s
  }

  /** `accepted`: the token verifies and its user is active. Closing a closed socket does
      nothing. */
  function DoAuthenticate(s: State, ws: Id, u: Id, accepted: bool, now: int, c: Settings): State
    requires ws in s.sockets
  {
    var sock := s.sockets[ws];
    if !accepted || (sock.authenticated && sock.userId != u) then Closes(s, ws)
    else if !sock.authenticated && ConnectionCount(s, u) >= c.maxConnectionsPerUser then Closes(s, ws)
    else
      var s1 := if sock.authenticated then s else Registered(s, u, ws);
      var s2 := s1.(sockets := s1.sockets[ws := sock.(authenticated := true, userId := u)]);
      Snapshot(Beaten(s2, u, now), ws)
  }

  /** The `authenticated` frame carries all statuses. */
  function Snapshot(s: State, ws: Id): State {
    if ws !in s.sockets || s.sockets[ws].phase != Open then s
    else s.(sockets := s.sockets[ws := s.sockets[ws].(view := AllStatuses(s.presenceByUser))])
  }

  function DoCloseEvent(s: State, ws: Id): State
    requires IsLive(s, ws)
  {
    var s1 := SetPhase(s, ws, Closed);
    if !s.sockets[ws].authenticated then s1 else
    var u := s.sockets[ws].userId;
    Disconnected(Unregistered(Left(s1, s.sockets[ws].joinedChannels, ws), u, ws), u)
  }

  /** A step that does not apply, or that only answers its sender, changes nothing. */
  function Next(s: State, step: Step, c: Settings): State {
    match step
    case Connect(ws) => if ws in s.sockets then s else s.(sockets := s.sockets[ws := Socket(Open, false, 0, {}, map[])])
    case Authenticate(ws, u, accepted, now) => if IsLive(s, ws) then DoAuthenticate(s, ws, u, accepted, now, c) else s
    case Join(ws, ch, isMember) => if IsAuthenticated(s, ws) && isMember then Joined(s, ch, ws) else s
    case Leave(ws, ch) => if IsAuthenticated(s, ws) then Left(s, {ch}, ws) else s
    case Heartbeat(ws, now) => if IsAuthenticated(s, ws) then Beaten(s, s.sockets[ws].userId, now) else s
    case Sweep(now) => Swept(s, s.presenceByUser.Keys, now, c)
    case StartClose(ws) => if IsLive(s, ws) then Closes(s, ws) else s
    case CloseEvent(ws) => if IsLive(s, ws) then DoCloseEvent(s, ws) else s
  }

  function Run(steps: seq<Step>, c: Settings): State {
    if steps == [] then EMPTY else Next(Run(steps[..|steps| - 1], c), steps[|steps| - 1], c)
  }
}
