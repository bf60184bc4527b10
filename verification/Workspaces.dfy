/** Workspaces, channels and invitations under their HTTP handlers, each handler one
    atomic step: ownership, the provenance of managers, containment and the freeze of
    archived workspaces. */
module Workspaces {
  import opened JsText

  type Id = nat

  datatype Role = OWNER | MANAGER | MEMBER

  /** A row of `workspaces` with its rows of `workspace_members`. */
  datatype Workspace = Workspace(
    ownerId: Id, members: map<Id, Role>, archived: bool, discoverable: bool, managersCanArchive: bool)

  /** A row of `channels` that belongs to a workspace, with its members and messages. */
  datatype Channel = Channel(workspaceId: Id, isPublic: bool, members: set<Id>, messages: seq<Text>)

  /** A token invitation (for somebody new) or one for an existing user; `pending` or resolved. */
  datatype Invitation = Invitation(workspaceId: Id, role: Role, invitee: Option<Id>, invitedBy: Id, pending: bool)

  datatype State = State(
    users: set<Id>, admins: set<Id>, workspaces: map<Id, Workspace>, channels: map<Id, Channel>, invitations: map<Id, Invitation>)

  datatype Outcome = Ok | NotFound | Forbidden | Conflict | Invalid

  datatype Reply = Reply(state: State, outcome: Outcome)

  // ------------------------------------------------------------------- checks

  datatype Permission = MANAGE_MEMBERS | MANAGE_MANAGERS | ARCHIVE | TRANSFER_OWNERSHIP | CHANGE_VISIBILITY | MANAGE_SETTINGS

  function Permissions(role: Role): set<Permission> {
    match role
    case OWNER => {MANAGE_MEMBERS, MANAGE_MANAGERS, ARCHIVE, TRANSFER_OWNERSHIP, CHANGE_VISIBILITY, MANAGE_SETTINGS}
    case MANAGER => {MANAGE_MEMBERS, ARCHIVE}
    case MEMBER => {}
  }

  function RoleOf(s: State, u: Id, w: Id): (r: Option<Role>)
    ensures r.Some? ==> w in s.workspaces && u in s.workspaces[w].members
  {
    if w in s.workspaces && u in s.workspaces[w].members then Some(s.workspaces[w].members[u]) else None
  }

  /** requireWorkspacePermission. */
  function Permitted(s: State, caller: Id, w: Id, p: Permission): (r: Outcome)
    ensures r == Ok ==> w in s.workspaces
  {
    if caller in s.admins then (if w in s.workspaces then Ok else NotFound)
    else match RoleOf(s, caller, w)
      case None => NotFound
      case Some(role) =>
        if p !in Permissions(role) then Forbidden
        else if role == MANAGER && p == ARCHIVE && !s.workspaces[w].managersCanArchive then Forbidden
        else Ok
  }

  function NotArchived(s: State, w: Id): Outcome {
    if w in s.workspaces && s.workspaces[w].archived then Conflict else Ok
  }

  function And(a: Outcome, b: Outcome): Outcome { if a != Ok then a else b }

  function MemberOrAdmin(s: State, caller: Id, w: Id): (r: Outcome)
    ensures r == Ok ==> w in s.workspaces
  {
    if RoleOf(s, caller, w).Some? || (caller in s.admins && w in s.workspaces) then Ok else NotFound
  }

  predicate InChannel(s: State, u: Id, ch: Id) { ch in s.channels && u in s.channels[ch].members }

  function ChannelMemberOrAdmin(s: State, caller: Id, ch: Id): Outcome {
    if InChannel(s, caller, ch) || (caller in s.admins && ch in s.channels) then Ok else NotFound
  }

  /** Giving or taking the MANAGER role takes more than managing members. */
  function RolePermission(role: Role): Permission { if role == MANAGER then MANAGE_MANAGERS else MANAGE_MEMBERS }

  // ------------------------------------------------------------- row changes

  function WithWorkspace(s: State, w: Id, ws: Workspace): State { s.(workspaces := s.workspaces[w := ws]) }

  function WithChannel(s: State, ch: Id, c: Channel): State { s.(channels := s.channels[ch := c]) }

  function WithInvitation(s: State, i: Id, inv: Invitation): State { s.(invitations := s.invitations[i := inv]) }

  function WithMember(s: State, w: Id, u: Id, role: Role): State
    requires w in s.workspaces
  {
    WithWorkspace(s, w, s.workspaces[w].(members := s.workspaces[w].members[u := role]))
  }

  /** The transaction that takes a member out: first out of the workspace's channels. */
  function WithoutMember(s: State, w: Id, u: Id): State
    requires w in s.workspaces
  {
    WithWorkspace(WithoutChannelMember(s, w, u), w, s.workspaces[w].(members := s.workspaces[w].members - {u}))
  }

  function WithoutChannelMember(s: State, w: Id, u: Id): State {
    s.(channels := map ch | ch in s.channels ::
      if s.channels[ch].workspaceId == w then s.channels[ch].(members := s.channels[ch].members - {u}) else s.channels[ch])
  }

  /** The transaction that moves ownership: the owner who was read goes down, the target
      up, and owner_id follows. */
  function Transferred(s: State, w: Id, readOwner: Id, target: Id): State
    requires w in s.workspaces
  {
    var ws := s.workspaces[w];
    var demoted := if readOwner in ws.members then ws.members[readOwner := MANAGER] else ws.members;
    WithWorkspace(s, w, ws.(members := if target in demoted then demoted[target := OWNER] else demoted, ownerId := target))
  }

  // ----------------------------------------------------------------- handlers

  datatype Step =
    | CreateWorkspace(w: Id, discoverable: bool, orgAllows: bool)
    | Subscribe(w: Id)
    | SetArchived(w: Id, archived: bool)
    | AddMember(w: Id, target: Id, role: Role)
    | Invite(w: Id, i: Id, role: Role)
    | InviteUser(w: Id, i: Id, target: Id, role: Role)
    | ChangeRole(w: Id, target: Id, role: Role)
    | RemoveMember(w: Id, target: Id)
    | Leave(w: Id)
    | TransferOwnership(w: Id, target: Id)
    | SetVisibility(w: Id, discoverable: bool)
    | SetSettings(w: Id, managersCanArchive: bool)
    | AcceptToken(i: Id, newUser: Id, expired: bool)
    | AcceptInvitation(i: Id)
    | DeclineInvitation(i: Id)
    | RevokeToken(i: Id)
    | CreateChannel(w: Id, ch: Id, isPublic: bool)
    | JoinChannel(w: Id, ch: Id)
    | AddToChannel(w: Id, ch: Id, target: Id)
    | RemoveFromChannel(w: Id, ch: Id, target: Id)
    | LeaveChannel(w: Id, ch: Id)
    | PostMessage(ch: Id, text: Text)
    | RewriteMessage(ch: Id, index: nat, text: Text)
    | CreateUser(target: Id)
    | Promote(target: Id)
    | Demote(target: Id)

  function Handle(s: State, caller: Id, step: Step): Reply {
    match step
    case CreateWorkspace(w, discoverable, orgAllows) => DoCreateWorkspace(s, caller, w, discoverable, orgAllows)
    case Subscribe(w) => DoSubscribe(s, caller, w)
    case SetArchived(w, archived) =>
      Change(s, w, Permitted(s, caller, w, ARCHIVE), Archived(archived))
    case AddMember(w, target, role) => DoAddMember(s, caller, w, target, role)
    case Invite(w, i, role) => DoInvite(s, caller, w, i, None, role)
    case InviteUser(w, i, target, role) => DoInvite(s, caller, w, i, Some(target), role)
    case ChangeRole(w, target, role) => DoChangeRole(s, caller, w, target, role)
    case RemoveMember(w, target) => DoRemoveMember(s, caller, w, target)
    case Leave(w) => DoLeave(s, caller, w)
    case TransferOwnership(w, target) => DoTransfer(s, caller, w, target)
    case SetVisibility(w, discoverable) =>
      Change(s, w, And(Permitted(s, caller, w, CHANGE_VISIBILITY), NotArchived(s, w)), Discoverable(discoverable))
    case SetSettings(w, managersCanArchive) =>
      Change(s, w, Permitted(s, caller, w, MANAGE_SETTINGS), ManagersCanArchive(managersCanArchive))
    case AcceptToken(i, newUser, expired) => DoAcceptToken(s, i, newUser, expired)
    case AcceptInvitation(i) => DoAcceptInvitation(s, caller, i)
    case DeclineInvitation(i) =>
      if !OwnPending(s, caller, i) then Reply(s, NotFound) else Reply(Resolved(s, i), Ok)
    case RevokeToken(i) => DoRevoke(s, caller, i)
    case CreateChannel(w, ch, isPublic) => DoCreateChannel(s, caller, w, ch, isPublic)
    case JoinChannel(w, ch) => DoJoinChannel(s, caller, w, ch)
    case AddToChannel(w, ch, target) => DoAddToChannel(s, caller, w, ch, target)
    case RemoveFromChannel(w, ch, target) => DoRemoveFromChannel(s, caller, w, ch, target)
    case LeaveChannel(w, ch) => DoLeaveChannel(s, caller, w, ch)
    case PostMessage(ch, text) => DoPost(s, caller, ch, text)
    case RewriteMessage(ch, index, text) => DoRewrite(s, caller, ch, index, text)
    case CreateUser(target) => DoCreateUser(s, caller, target)
    case Promote(target) => DoPromote(s, caller, target)
    case Demote(target) => DoDemote(s, caller, target)
  }

  /** A workspace row's flags, once the checks have passed. */
  function Change(s: State, w: Id, checks: Outcome, flag: Flag): Reply {
    if checks != Ok || w !in s.workspaces then Reply(s, checks) else Reply(WithWorkspace(s, w, Flagged(s.workspaces[w], flag)), Ok)
  }

  datatype Flag = Archived(on: bool) | Discoverable(on: bool) | ManagersCanArchive(on: bool)

  function Flagged(ws: Workspace, flag: Flag): Workspace {
    match flag
    case Archived(on) => ws.(archived := on)
    case Discoverable(on) => ws.(discoverable := on)
    case ManagersCanArchive(on) => ws.(managersCanArchive := on)
  }

  /** `orgAllows`: the caller's organization resolves and is not archived. Ids are fresh. */
  function DoCreateWorkspace(s: State, caller: Id, w: Id, discoverable: bool, orgAllows: bool): Reply {
    if !orgAllows || w in s.workspaces || caller !in s.users then Reply(s, Invalid)
    else Reply(WithWorkspace(s, w, Workspace(caller, map[caller := OWNER], false, discoverable, false)), Ok)
  }

  function DoSubscribe(s: State, caller: Id, w: Id): Reply {
    if w !in s.workspaces || !s.workspaces[w].discoverable then Reply(s, NotFound)
    else if NotArchived(s, w) != Ok then Reply(s, NotArchived(s, w))
    else if RoleOf(s, caller, w).Some? || caller !in s.users then Reply(s, Ok)
    else Reply(WithMember(s, w, caller, MEMBER), Ok)
  }

  function DoAddMember(s: State, caller: Id, w: Id, target: Id, role: Role): Reply {
    var checks := And(Permitted(s, caller, w, RolePermission(role)), NotArchived(s, w));
    if role == OWNER then Reply(s, Invalid)
    else if checks != Ok then Reply(s, checks)
    else if target !in s.users then Reply(s, Invalid)
    else if RoleOf(s, target, w).Some? then Reply(s, Conflict)
    else Reply(WithMember(s, w, target, role), Ok)
  }

  /** A token invitation, or one for a user who is no member and has none pending. */
  function DoInvite(s: State, caller: Id, w: Id, i: Id, invitee: Option<Id>, role: Role): Reply {
    var checks := And(Permitted(s, caller, w, RolePermission(role)), NotArchived(s, w));
    if role == OWNER || i in s.invitations then Reply(s, Invalid)
    else if checks != Ok then Reply(s, checks)
    else if invitee.Some? && invitee.value !in s.users then Reply(s, Invalid)
    else if invitee.Some? && (RoleOf(s, invitee.value, w).Some? || HasPending(s, w, invitee.value)) then Reply(s, Conflict)
    else Reply(WithInvitation(s, i, Invitation(w, role, invitee, caller, true)), Ok)
  }

  predicate HasPending(s: State, w: Id, u: Id) {
    exists i :: i in s.invitations && s.invitations[i].workspaceId == w && s.invitations[i].invitee == Some(u) && s.invitations[i].pending
  }

  function DoChangeRole(s: State, caller: Id, w: Id, target: Id, role: Role): Reply {
    var checks := And(Permitted(s, caller, w, MANAGE_MEMBERS), NotArchived(s, w));
    if checks != Ok then Reply(s, checks)
    else if role == OWNER then Reply(s, Invalid)
    else match RoleOf(s, target, w)
      case None => Reply(s, NotFound)
      case Some(old_) =>
        if old_ == OWNER then Reply(s, Conflict)
        else if (old_ == MANAGER || role == MANAGER) && Permitted(s, caller, w, MANAGE_MANAGERS) != Ok
        then Reply(s, Permitted(s, caller, w, MANAGE_MANAGERS))
        else Reply(WithMember(s, w, target, role), Ok)
  }

  function DoRemoveMember(s: State, caller: Id, w: Id, target: Id): Reply {
    var checks := And(Permitted(s, caller, w, MANAGE_MEMBERS), NotArchived(s, w));
    if checks != Ok then Reply(s, checks)
    else match RoleOf(s, target, w)
      case None => Reply(s, NotFound)
      case Some(role) =>
        if role == OWNER then Reply(s, Conflict)
        else if role == MANAGER && Permitted(s, caller, w, MANAGE_MANAGERS) != Ok
        then Reply(s, Permitted(s, caller, w, MANAGE_MANAGERS))
        else Reply(WithoutMember(s, w, target), Ok)
  }

  function DoLeave(s: State, caller: Id, w: Id): Reply {
    match RoleOf(s, caller, w)
    case None => Reply(s, NotFound)
    case Some(role) =>
      if NotArchived(s, w) != Ok then Reply(s, NotArchived(s, w))
      else if role == OWNER then Reply(s, Conflict)
      else Reply(WithoutMember(s, w, caller), Ok)
  }

  function DoTransfer(s: State, caller: Id, w: Id, target: Id): Reply {
    var checks := And(Permitted(s, caller, w, TRANSFER_OWNERSHIP), NotArchived(s, w));
    if checks != Ok then Reply(s, checks)
    else if RoleOf(s, target, w).None? || target == s.workspaces[w].ownerId then Reply(s, Invalid)
    else Reply(Transferred(s, w, s.workspaces[w].ownerId, target), Ok)
  }

  function Resolved(s: State, i: Id): State
    requires i in s.invitations
  {
    WithInvitation(s, i, s.invitations[i].(pending := false))
  }

  /** A newcomer redeems a token: the account, its membership and the row's status. */
  function DoAcceptToken(s: State, i: Id, newUser: Id, expired: bool): Reply {
    if i !in s.invitations || s.invitations[i].invitee.Some? || !s.invitations[i].pending || expired then Reply(s, NotFound) else
    var inv := s.invitations[i];
    if inv.workspaceId !in s.workspaces || s.workspaces[inv.workspaceId].archived then Reply(s, NotFound)
    else if newUser in s.users then Reply(s, Conflict)
    else Reply(Resolved(WithMember(s.(users := s.users + {newUser}), inv.workspaceId, newUser, inv.role), i), Ok)
  }

  predicate OwnPending(s: State, caller: Id, i: Id) {
    i in s.invitations && s.invitations[i].invitee == Some(caller) && s.invitations[i].pending
  }

  function DoAcceptInvitation(s: State, caller: Id, i: Id): Reply {
    if !OwnPending(s, caller, i) then Reply(s, NotFound) else
    var inv := s.invitations[i];
    if inv.workspaceId !in s.workspaces || s.workspaces[inv.workspaceId].archived then Reply(s, Conflict)
    else if RoleOf(s, caller, inv.workspaceId).Some? || caller !in s.users then Reply(Resolved(s, i), Ok)
    else Reply(Resolved(WithMember(s, inv.workspaceId, caller, inv.role), i), Ok)
  }

  function DoRevoke(s: State, caller: Id, i: Id): Reply {
    if i !in s.invitations || s.invitations[i].invitee.Some? then Reply(s, NotFound) else
    var inv := s.invitations[i];
    var checks := if inv.invitedBy == caller then Ok else Permitted(s, caller, inv.workspaceId, MANAGE_MEMBERS);
    if checks != Ok then Reply(s, checks) else Reply(Resolved(s, i), Ok)
  }

  /** Only a creator who is a member joins the new channel: an admin's override does not. */
  function DoCreateChannel(s: State, caller: Id, w: Id, ch: Id, isPublic: bool): Reply {
    var checks := And(MemberOrAdmin(s, caller, w), NotArchived(s, w));
    if checks != Ok then Reply(s, checks)
    else if ch in s.channels then Reply(s, Invalid)
    else
      var members: set<Id> := if RoleOf(s, caller, w).Some? then {caller} else {};
      Reply(WithChannel(s, ch, Channel(w, isPublic, members, [])), Ok)
  }

  function DoJoinChannel(s: State, caller: Id, w: Id, ch: Id): Reply {
    var checks := And(MemberOrAdmin(s, caller, w), NotArchived(s, w));
    if checks != Ok then Reply(s, checks)
    else if ch !in s.channels || s.channels[ch].workspaceId != w || !s.channels[ch].isPublic then Reply(s, Invalid)
    else Reply(WithChannel(s, ch, s.channels[ch].(members := s.channels[ch].members + {caller})), Ok)
  }

  function DoAddToChannel(s: State, caller: Id, w: Id, ch: Id, target: Id): Reply {
    if ChannelMemberOrAdmin(s, caller, ch) != Ok then Reply(s, NotFound)
    else if s.channels[ch].workspaceId != w then Reply(s, Invalid)
    else if NotArchived(s, w) != Ok then Reply(s, NotArchived(s, w))
    else if RoleOf(s, target, w).None? then Reply(s, Invalid)
    else Reply(WithChannel(s, ch, s.channels[ch].(members := s.channels[ch].members + {target})), Ok)
  }

  function DoRemoveFromChannel(s: State, caller: Id, w: Id, ch: Id, target: Id): Reply {
    if ChannelMemberOrAdmin(s, caller, ch) != Ok then Reply(s, NotFound)
    else if s.channels[ch].workspaceId != w then Reply(s, Invalid)
    else if NotArchived(s, w) != Ok then Reply(s, NotArchived(s, w))
    else if target !in s.channels[ch].members then Reply(s, NotFound)
    else Reply(WithChannel(s, ch, s.channels[ch].(members := s.channels[ch].members - {target})), Ok)
  }

  function DoLeaveChannel(s: State, caller: Id, w: Id, ch: Id): Reply {
    if !InChannel(s, caller, ch) then Reply(s, NotFound)
    else if s.channels[ch].workspaceId != w then Reply(s, Invalid)
    else if NotArchived(s, w) != Ok then Reply(s, NotArchived(s, w))
    else Reply(WithChannel(s, ch, s.channels[ch].(members := s.channels[ch].members - {caller})), Ok)
  }

  function DoPost(s: State, caller: Id, ch: Id, text: Text): Reply {
    if !InChannel(s, caller, ch) then Reply(s, NotFound)
    else if NotArchived(s, s.channels[ch].workspaceId) != Ok then Reply(s, Conflict)
    else Reply(WithChannel(s, ch, s.channels[ch].(messages := s.channels[ch].messages + [text])), Ok)
  }

  /** A toggle or an edit, with the text it results in. */
  function DoRewrite(s: State, caller: Id, ch: Id, index: nat, text: Text): Reply {
    if !InChannel(s, caller, ch) then Reply(s, NotFound)
    else if NotArchived(s, s.channels[ch].workspaceId) != Ok then Reply(s, Conflict)
    else if index >= |s.channels[ch].messages| then Reply(s, NotFound)
    else Reply(WithChannel(s, ch, s.channels[ch].(messages := s.channels[ch].messages[index := text])), Ok)
  }

  // ------------------------------------------------- the system administrators

  function DoCreateUser(s: State, caller: Id, target: Id): Reply {
    if caller !in s.admins then Reply(s, Forbidden)
    else if target in s.users then Reply(s, Conflict)
    else Reply(s.(users := s.users + {target}), Ok)
  }

  function DoPromote(s: State, caller: Id, target: Id): Reply {
    if caller !in s.admins then Reply(s, Forbidden)
    else if target !in s.users then Reply(s, NotFound)
    else Reply(s.(admins := s.admins + {target}), Ok)
  }

  /** Nobody demotes himself. */
  function DoDemote(s: State, caller: Id, target: Id): Reply {
    if caller !in s.admins then Reply(s, Forbidden)
    else if target == caller then Reply(s, Invalid)
    else if target !in s.users then Reply(s, NotFound)
    else Reply(s.(admins := s.admins - {target}), Ok)
  }
}
