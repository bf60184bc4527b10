/** Who may do what, told from the membership rows and the list of administrators alone:
    each request's answer, and what exactly it changes. */
module WorkspaceRights {
  import opened JsText
  import opened Workspaces
  import opened WorkspaceRuns

  // ----------------------------------------------------------- rows, read directly

  predicate Has(s: State, u: Id, w: Id, role: Role) {
    w in s.workspaces && u in s.workspaces[w].members && s.workspaces[w].members[u] == role
  }

  predicate IsMember(s: State, u: Id, w: Id) { w in s.workspaces && u in s.workspaces[w].members }

  /** The OWNER of the workspace, or a system administrator. */
  predicate OwnerPower(s: State, u: Id, w: Id) { w in s.workspaces && (u in s.admins || Has(s, u, w, OWNER)) }

  predicate ManagerPower(s: State, u: Id, w: Id) { OwnerPower(s, u, w) || Has(s, u, w, MANAGER) }

  predicate IsOpen(s: State, w: Id) { w in s.workspaces && !s.workspaces[w].archived }

  /** An invitation of user `u` to the workspace that waits for an answer. */
  predicate IsInvited(s: State, u: Id, w: Id) {
    exists i :: i in s.invitations && s.invitations[i].invitee == Some(u) && s.invitations[i].workspaceId == w && s.invitations[i].pending
  }

  // ----------------------------------------------------------------- what changes

  /** Users, administrators and invitations are as before. */
  predicate SamePeople(s: State, t: State) { t.users == s.users && t.admins == s.admins && t.invitations == s.invitations }

  /** All other workspaces, and this one but for its members. */
  ghost predicate SameButMembers(s: State, t: State, w: Id) {
    && t.workspaces.Keys == s.workspaces.Keys && w in s.workspaces
    && t.workspaces[w] == s.workspaces[w].(members := t.workspaces[w].members)
    && forall v :: v in s.workspaces && v != w ==> t.workspaces[v] == s.workspaces[v]
  }

  /** In the workspace `u` has this role, or none, and everybody else what he had. */
  ghost predicate RoleBecomes(s: State, t: State, w: Id, u: Id, role: Option<Role>) {
    && SameButMembers(s, t, w)
    && (if role.Some? then Has(t, u, w, role.value) else !IsMember(t, u, w))
    && forall k, r :: k != u ==> (Has(t, k, w, r) <==> Has(s, k, w, r))
  }

  // --------------------------------------------------- requests that take authority

  lemma AddMemberExactly(s: State, caller: Id, w: Id, target: Id, role: Role)
    ensures var r := Handle(s, caller, AddMember(w, target, role));
      && (r.outcome == Ok <==>
            && (if role == MANAGER then OwnerPower(s, caller, w) else ManagerPower(s, caller, w))
            && IsOpen(s, w) && role != OWNER && target in s.users && !IsMember(s, target, w))
      && (if r.outcome == Ok then SamePeople(s, r.state) && r.state.channels == s.channels && RoleBecomes(s, r.state, w, target, Some(role))
          else r.state == s)
  {
  }

  lemma ChangeRoleExactly(s: State, caller: Id, w: Id, target: Id, role: Role)
    ensures var r := Handle(s, caller, ChangeRole(w, target, role));
      && (r.outcome == Ok <==>
            && (if role == MANAGER || Has(s, target, w, MANAGER) then OwnerPower(s, caller, w) else ManagerPower(s, caller, w))
            && IsOpen(s, w) && role != OWNER && IsMember(s, target, w) && !Has(s, target, w, OWNER))
      && (if r.outcome == Ok then SamePeople(s, r.state) && r.state.channels == s.channels && RoleBecomes(s, r.state, w, target, Some(role))
          else r.state == s)
  {
  }

  lemma RemoveMemberExactly(s: State, caller: Id, w: Id, target: Id)
    ensures var r := Handle(s, caller, RemoveMember(w, target));
      && (r.outcome == Ok <==>
            && (if Has(s, target, w, MANAGER) then OwnerPower(s, caller, w) else ManagerPower(s, caller, w))
            && IsOpen(s, w) && IsMember(s, target, w) && !Has(s, target, w, OWNER))
      && (if r.outcome == Ok then SamePeople(s, r.state) && RoleBecomes(s, r.state, w, target, None) && LeavesChannels(s, r.state, w, target)
          else r.state == s)
  {
  }

  lemma LeaveExactly(s: State, caller: Id, w: Id)
    ensures var r := Handle(s, caller, Leave(w));
      && (r.outcome == Ok <==> IsOpen(s, w) && IsMember(s, caller, w) && !Has(s, caller, w, OWNER))
      && (if r.outcome == Ok then SamePeople(s, r.state) && RoleBecomes(s, r.state, w, caller, None) && LeavesChannels(s, r.state, w, caller)
          else r.state == s)
  {
  }

  /** He is out of the channels of the workspace, and nothing else changes in any channel. */
  ghost predicate LeavesChannels(s: State, t: State, w: Id, u: Id) {
    && t.channels.Keys == s.channels.Keys
    && (forall ch :: ChannelOf(s, ch, w) ==> t.channels[ch] == s.channels[ch].(members := s.channels[ch].members - {u}))
    && (forall ch :: ch in s.channels && !ChannelOf(s, ch, w) ==> t.channels[ch] == s.channels[ch])
  }

  lemma TransferExactly(s: State, caller: Id, w: Id, target: Id)
    requires Invariant(s)
    ensures var r := Handle(s, caller, TransferOwnership(w, target));
      && (r.outcome == Ok <==> OwnerPower(s, caller, w) && IsOpen(s, w) && IsMember(s, target, w) && target != s.workspaces[w].ownerId)
      && (r.outcome != Ok ==> r.state == s)
      && (r.outcome == Ok ==>
            && SamePeople(s, r.state) && r.state.channels == s.channels && r.state.workspaces.Keys == s.workspaces.Keys
            && (forall v :: v in s.workspaces && v != w ==> r.state.workspaces[v] == s.workspaces[v])
            && r.state.workspaces[w].(ownerId := s.workspaces[w].ownerId, members := s.workspaces[w].members) == s.workspaces[w]
            && r.state.workspaces[w].ownerId == target
            && Has(r.state, target, w, OWNER) && Has(r.state, s.workspaces[w].ownerId, w, MANAGER)
            && forall k, role :: k != target && k != s.workspaces[w].ownerId ==> (Has(r.state, k, w, role) <==> Has(s, k, w, role)))
  {
    if w in s.workspaces { assert WorkspaceFits(s, s.workspaces[w]); }
  }

  lemma ArchiveExactly(s: State, caller: Id, w: Id, on: bool)
    ensures var r := Handle(s, caller, SetArchived(w, on));
      && (r.outcome == Ok <==> OwnerPower(s, caller, w) || (Has(s, caller, w, MANAGER) && s.workspaces[w].managersCanArchive))
      && r.state == if r.outcome == Ok then s.(workspaces := s.workspaces[w := s.workspaces[w].(archived := on)]) else s
  {
  }

  lemma VisibilityExactly(s: State, caller: Id, w: Id, on: bool)
    ensures var r := Handle(s, caller, SetVisibility(w, on));
      && (r.outcome == Ok <==> OwnerPower(s, caller, w) && IsOpen(s, w))
      && r.state == if r.outcome == Ok then s.(workspaces := s.workspaces[w := s.workspaces[w].(discoverable := on)]) else s
  {
  }

  lemma SettingsExactly(s: State, caller: Id, w: Id, on: bool)
    ensures var r := Handle(s, caller, SetSettings(w, on));
      && (r.outcome == Ok <==> OwnerPower(s, caller, w))
      && r.state == if r.outcome == Ok then s.(workspaces := s.workspaces[w := s.workspaces[w].(managersCanArchive := on)]) else s
  {
  }

  /** An invitation is made by who could give the role, in his name, and is open. */
  lemma InviteExactly(s: State, caller: Id, w: Id, i: Id, invitee: Option<Id>, role: Role)
    ensures var r := Handle(s, caller, if invitee.Some? then InviteUser(w, i, invitee.value, role) else Invite(w, i, role));
      && (r.outcome == Ok <==>
            && (if role == MANAGER then OwnerPower(s, caller, w) else ManagerPower(s, caller, w))
            && IsOpen(s, w) && role != OWNER && i !in s.invitations
            && (invitee.Some? ==> invitee.value in s.users && !IsMember(s, invitee.value, w) && !IsInvited(s, invitee.value, w)))
      && r.state == if r.outcome == Ok then s.(invitations := s.invitations[i := Invitation(w, role, invitee, caller, true)]) else s
  {
  }

  /** A token is revoked by who made it, or by who may manage members. */
  lemma RevokeExactly(s: State, caller: Id, i: Id)
    ensures var r := Handle(s, caller, RevokeToken(i));
      && (r.outcome == Ok <==>
            && i in s.invitations && s.invitations[i].invitee.None?
            && (s.invitations[i].invitedBy == caller || ManagerPower(s, caller, s.invitations[i].workspaceId)))
      && r.state == if r.outcome == Ok then s.(invitations := s.invitations[i := s.invitations[i].(pending := false)]) else s
  {
  }

  // ----------------------------------------------------------------- the refusals

  /** A request about workspace `w` that takes authority there, well formed. */
  predicate TakesAuthority(s: State, step: Step, w: Id) {
    match step
    case AddMember(v, _, role) => v == w && role != OWNER
    case Invite(v, i, role) => v == w && role != OWNER && i !in s.invitations
    case InviteUser(v, i, _, role) => v == w && role != OWNER && i !in s.invitations
    case ChangeRole(v, _, _) => v == w
    case RemoveMember(v, _) => v == w
    case TransferOwnership(v, _) => v == w
    case SetArchived(v, _) => v == w
    case SetVisibility(v, _) => v == w
    case SetSettings(v, _) => v == w
    case _ => false
  }

  /** To a stranger the workspace is not there; a plain member is forbidden; and of a workspace
      that is archived its owner can change the archive flag and the settings only. */
  lemma RefusedAs(s: State, caller: Id, step: Step, w: Id)
    requires TakesAuthority(s, step, w)
    ensures caller !in s.admins && !IsMember(s, caller, w) ==> Handle(s, caller, step) == Reply(s, NotFound)
    ensures caller !in s.admins && Has(s, caller, w, MEMBER) ==> Handle(s, caller, step) == Reply(s, Forbidden)
    ensures OwnerPower(s, caller, w) && IsArchived(s, w) && !step.SetArchived? && !step.SetSettings? ==>
              Handle(s, caller, step) == Reply(s, Conflict)
  {
    hide HasPending, DoCreateChannel, DoJoinChannel, DoAddToChannel, DoRemoveFromChannel, DoLeaveChannel, DoPost, DoRewrite;
  }

  /** A manager is forbidden what takes the owner. */
  lemma ManagerRefused(s: State, caller: Id, w: Id, target: Id, i: Id, on: bool)
    requires caller !in s.admins && Has(s, caller, w, MANAGER)
    ensures Handle(s, caller, AddMember(w, target, MANAGER)) == Reply(s, Forbidden)
    ensures i !in s.invitations ==> Handle(s, caller, Invite(w, i, MANAGER)) == Reply(s, Forbidden)
    ensures IsOpen(s, w) && Has(s, target, w, MANAGER) ==> Handle(s, caller, RemoveMember(w, target)) == Reply(s, Forbidden)
    ensures IsOpen(s, w) && Has(s, target, w, MEMBER) ==> Handle(s, caller, ChangeRole(w, target, MANAGER)) == Reply(s, Forbidden)
    ensures Handle(s, caller, TransferOwnership(w, target)) == Reply(s, Forbidden)
    ensures Handle(s, caller, SetVisibility(w, on)) == Reply(s, Forbidden) && Handle(s, caller, SetSettings(w, on)) == Reply(s, Forbidden)
    ensures !s.workspaces[w].managersCanArchive ==> Handle(s, caller, SetArchived(w, on)) == Reply(s, Forbidden)
  {
  }

  /** Who has the power is told what is wrong with the request. */
  lemma WrongTarget(s: State, caller: Id, w: Id, target: Id, i: Id, role: Role)
    requires OwnerPower(s, caller, w) && IsOpen(s, w) && role != OWNER
    ensures var r := Handle(s, caller, AddMember(w, target, role)).outcome;
      && (r == Invalid <==> target !in s.users) && (r == Conflict <==> target in s.users && IsMember(s, target, w))
    ensures var r := Handle(s, caller, ChangeRole(w, target, role)).outcome;
      (r == NotFound <==> !IsMember(s, target, w)) && (r == Conflict <==> Has(s, target, w, OWNER))
    ensures var r := Handle(s, caller, RemoveMember(w, target)).outcome;
      (r == NotFound <==> !IsMember(s, target, w)) && (r == Conflict <==> Has(s, target, w, OWNER))
    ensures var r := Handle(s, caller, TransferOwnership(w, target)).outcome;
      r == Invalid <==> !IsMember(s, target, w) || target == s.workspaces[w].ownerId
    ensures i !in s.invitations ==> var r := Handle(s, caller, InviteUser(w, i, target, role)).outcome;
      && (r == Invalid <==> target !in s.users)
      && (r == Conflict <==> target in s.users && (IsMember(s, target, w) || IsInvited(s, target, w)))
    ensures Handle(s, caller, AddMember(w, target, OWNER)).outcome == Handle(s, caller, Invite(w, i, OWNER)).outcome == Invalid
    ensures Handle(s, caller, ChangeRole(w, target, OWNER)).outcome == Invalid
  {
    hide Transferred, WithMember, WithoutMember, WithInvitation;
  }

  /** And so is everybody about leaving and invitations. */
  lemma WrongAnswer(s: State, caller: Id, w: Id, i: Id, newUser: Id, expired: bool)
    ensures var r := Handle(s, caller, Leave(w)).outcome;
      (r == NotFound <==> !IsMember(s, caller, w)) && (r == Conflict <==> IsMember(s, caller, w) && (IsArchived(s, w) || Has(s, caller, w, OWNER)))
    ensures var r := Handle(s, caller, Subscribe(w)).outcome;
      r == NotFound <==> w !in s.workspaces || !s.workspaces[w].discoverable
    ensures var r := Handle(s, caller, AcceptInvitation(i)).outcome;
      r == NotFound <==> !(i in s.invitations && s.invitations[i].invitee == Some(caller) && s.invitations[i].pending)
    ensures var r := Handle(s, caller, AcceptToken(i, newUser, expired)).outcome;
      r == Ok || r == NotFound || (r == Conflict && newUser in s.users)
    ensures var r := Handle(s, caller, AcceptToken(i, newUser, expired)).outcome;
      r == NotFound <==> !(i in s.invitations && s.invitations[i].invitee.None? && s.invitations[i].pending && !expired
                           && IsOpen(s, s.invitations[i].workspaceId))
  {
    hide Transferred, WithMember, WithoutMember, WithInvitation, Resolved;
  }

  // ------------------------------------------------------- what everybody may do

  lemma SubscribeExactly(s: State, caller: Id, w: Id)
    ensures var r := Handle(s, caller, Subscribe(w));
      && (r.outcome == Ok <==> IsOpen(s, w) && s.workspaces[w].discoverable)
      && (if r.outcome == Ok && !IsMember(s, caller, w) && caller in s.users
          then SamePeople(s, r.state) && r.state.channels == s.channels && RoleBecomes(s, r.state, w, caller, Some(MEMBER))
          else r.state == s)
  {
  }

  lemma CreateWorkspaceExactly(s: State, caller: Id, w: Id, discoverable: bool, orgAllows: bool)
    ensures var r := Handle(s, caller, CreateWorkspace(w, discoverable, orgAllows));
      && (r.outcome == Ok <==> orgAllows && w !in s.workspaces && caller in s.users)
      && (r.outcome != Ok ==> r.state == s)
      && (r.outcome == Ok ==>
            && r.state == s.(workspaces := s.workspaces[w := r.state.workspaces[w]])
            && var ws := r.state.workspaces[w];
               ws.ownerId == caller && ws.members.Keys == {caller} && Has(r.state, caller, w, OWNER)
               && ws.discoverable == discoverable && !ws.archived && !ws.managersCanArchive)
  {
  }

  /** An own invitation that waits: accepted it gives its role unless one is held already. */
  lemma AcceptExactly(s: State, caller: Id, i: Id)
    ensures var r := Handle(s, caller, AcceptInvitation(i));
      && (r.outcome == Ok <==>
            && i in s.invitations && s.invitations[i].invitee == Some(caller) && s.invitations[i].pending
            && IsOpen(s, s.invitations[i].workspaceId))
      && (r.outcome != Ok ==> r.state == s)
      && (r.outcome == Ok ==>
            && r.state.users == s.users && r.state.admins == s.admins && r.state.channels == s.channels
            && r.state.invitations == s.invitations[i := s.invitations[i].(pending := false)]
            && if IsMember(s, caller, s.invitations[i].workspaceId) || caller !in s.users then r.state.workspaces == s.workspaces
               else RoleBecomes(s, r.state, s.invitations[i].workspaceId, caller, Some(s.invitations[i].role)))
  {
  }

  lemma DeclineExactly(s: State, caller: Id, i: Id)
    ensures var r := Handle(s, caller, DeclineInvitation(i));
      && (r.outcome == Ok <==> i in s.invitations && s.invitations[i].invitee == Some(caller) && s.invitations[i].pending)
      && r.state == if r.outcome == Ok then s.(invitations := s.invitations[i := s.invitations[i].(pending := false)]) else s
  {
  }

  /** A token that waits and has not expired makes a new account with its role. */
  lemma AcceptTokenExactly(s: State, caller: Id, i: Id, newUser: Id, expired: bool)
    ensures var r := Handle(s, caller, AcceptToken(i, newUser, expired));
      && (r.outcome == Ok <==>
            && i in s.invitations && s.invitations[i].invitee.None? && s.invitations[i].pending && !expired
            && IsOpen(s, s.invitations[i].workspaceId) && newUser !in s.users)
      && (r.outcome != Ok ==> r.state == s)
      && (r.outcome == Ok ==>
            && r.state.users == s.users + {newUser} && r.state.admins == s.admins && r.state.channels == s.channels
            && r.state.invitations == s.invitations[i := s.invitations[i].(pending := false)]
            && RoleBecomes(s, r.state, s.invitations[i].workspaceId, newUser, Some(s.invitations[i].role)))
  {
  }

  // ------------------------------------------------------------------- channels

  predicate InRoom(s: State, u: Id, ch: Id) { ch in s.channels && u in s.channels[ch].members }

  /** Nothing but this channel's members and messages changes. */
  ghost predicate ChannelBecomes(s: State, t: State, ch: Id, members: set<Id>, messages: seq<Text>) {
    && SamePeople(s, t) && t.workspaces == s.workspaces && ch in s.channels && t.channels.Keys == s.channels.Keys
    && t.channels[ch] == s.channels[ch].(members := members, messages := messages)
    && forall k :: k in s.channels && k != ch ==> t.channels[k] == s.channels[k]
  }

  lemma CreateChannelExactly(s: State, caller: Id, w: Id, ch: Id, isPublic: bool)
    ensures var r := Handle(s, caller, CreateChannel(w, ch, isPublic));
      && (r.outcome == Ok <==> IsOpen(s, w) && (IsMember(s, caller, w) || caller in s.admins) && ch !in s.channels)
      && r.state == if r.outcome == Ok
                    then s.(channels := s.channels[ch := Channel(w, isPublic, if IsMember(s, caller, w) then {caller} else {}, [])]) else s
  {
  }

  lemma JoinExactly(s: State, caller: Id, w: Id, ch: Id)
    ensures var r := Handle(s, caller, JoinChannel(w, ch));
      && (r.outcome == Ok <==>
            IsOpen(s, w) && (IsMember(s, caller, w) || caller in s.admins) && ChannelOf(s, ch, w) && s.channels[ch].isPublic)
      && (if r.outcome == Ok then ChannelBecomes(s, r.state, ch, s.channels[ch].members + {caller}, s.channels[ch].messages) else r.state == s)
  {
  }

  lemma AddToChannelExactly(s: State, caller: Id, w: Id, ch: Id, target: Id)
    ensures var r := Handle(s, caller, AddToChannel(w, ch, target));
      && (r.outcome == Ok <==>
            ChannelOf(s, ch, w) && (InRoom(s, caller, ch) || caller in s.admins) && !IsArchived(s, w) && IsMember(s, target, w))
      && (if r.outcome == Ok then ChannelBecomes(s, r.state, ch, s.channels[ch].members + {target}, s.channels[ch].messages) else r.state == s)
  {
  }

  lemma RemoveFromChannelExactly(s: State, caller: Id, w: Id, ch: Id, target: Id)
    ensures var r := Handle(s, caller, RemoveFromChannel(w, ch, target));
      && (r.outcome == Ok <==>
            ChannelOf(s, ch, w) && (InRoom(s, caller, ch) || caller in s.admins) && !IsArchived(s, w) && InRoom(s, target, ch))
      && (if r.outcome == Ok then ChannelBecomes(s, r.state, ch, s.channels[ch].members - {target}, s.channels[ch].messages) else r.state == s)
  {
  }

  lemma LeaveChannelExactly(s: State, caller: Id, w: Id, ch: Id)
    ensures var r := Handle(s, caller, LeaveChannel(w, ch));
      && (r.outcome == Ok <==> ChannelOf(s, ch, w) && InRoom(s, caller, ch) && !IsArchived(s, w))
      && (if r.outcome == Ok then ChannelBecomes(s, r.state, ch, s.channels[ch].members - {caller}, s.channels[ch].messages) else r.state == s)
  {
  }

  /** Only who is in the channel writes to it; an administrator's power does not reach there. */
  lemma WriteExactly(s: State, caller: Id, ch: Id, index: nat, text: Text)
    ensures var r := Handle(s, caller, PostMessage(ch, text));
      && (r.outcome == Ok <==> InRoom(s, caller, ch) && !IsArchived(s, s.channels[ch].workspaceId))
      && (if r.outcome == Ok then ChannelBecomes(s, r.state, ch, s.channels[ch].members, s.channels[ch].messages + [text]) else r.state == s)
    ensures var r := Handle(s, caller, RewriteMessage(ch, index, text));
      && (r.outcome == Ok <==> InRoom(s, caller, ch) && !IsArchived(s, s.channels[ch].workspaceId) && index < |s.channels[ch].messages|)
      && (if r.outcome == Ok then ChannelBecomes(s, r.state, ch, s.channels[ch].members, s.channels[ch].messages[index := text]) else r.state == s)
  {
  }

  // -------------------------------------------------------------- administrators

  lemma AdminsExactly(s: State, caller: Id, target: Id)
    ensures var r := Handle(s, caller, CreateUser(target));
      && (r.outcome == Ok <==> caller in s.admins && target !in s.users)
      && r.state == if r.outcome == Ok then s.(users := s.users + {target}) else s
    ensures var r := Handle(s, caller, Promote(target));
      && (r.outcome == Ok <==> caller in s.admins && target in s.users)
      && r.state == if r.outcome == Ok then s.(admins := s.admins + {target}) else s
    ensures var r := Handle(s, caller, Demote(target));
      && (r.outcome == Ok <==> caller in s.admins && target in s.users && target != caller)
      && r.state == if r.outcome == Ok then s.(admins := s.admins - {target}) else s
  {
  }

  // ------------------------------------------------------- who has no power there

  /** By leaving, by subscribing where that is open, or by accepting an own invitation. */
  predicate IsOwnChoice(s: State, r: Request, w: Id) {
    || r.step == Leave(w)
    || (r.step == Subscribe(w) && IsOpen(s, w) && s.workspaces[w].discoverable)
    || (r.step.AcceptInvitation? && r.step.i in s.invitations && s.invitations[r.step.i].workspaceId == w
        && s.invitations[r.step.i].invitee == Some(r.caller) && s.invitations[r.step.i].pending)
  }

  /** Owner and flags stay, and of the members only `u` may be another. */
  ghost predicate OnlyMember(s: State, t: State, w: Id, u: Id) {
    && w in s.workspaces && w in t.workspaces
    && t.workspaces[w] == s.workspaces[w].(members := t.workspaces[w].members)
    && forall k, role :: k != u ==> (Has(t, k, w, role) <==> Has(s, k, w, role))
  }

  /** No invitation to the workspace is new, and one that has changed is the caller's. */
  ghost predicate NoNewInvitation(s: State, t: State, w: Id, caller: Id) {
    forall i :: i in t.invitations && t.invitations[i].workspaceId == w ==>
      && i in s.invitations
      && (t.invitations[i] == s.invitations[i] || s.invitations[i].invitee == Some(caller) || s.invitations[i].invitedBy == caller)
      && t.invitations[i].(pending := true) == s.invitations[i].(pending := true)
  }

  /** A caller who is no administrator and no more than a MEMBER there changes in the
      workspace nobody's role but his own, and that only by an own choice; neither the owner
      nor a flag; and he invites nobody. */
  lemma PowerlessChangesNothing(s: State, r: Request, w: Id)
    requires Invariant(s) && w in s.workspaces && !ManagerPower(s, r.caller, w) && !r.step.AcceptToken?
    ensures var s' := Handle(s, r.caller, r.step).state;
      && OnlyMember(s, s', w, r.caller) && NoNewInvitation(s, s', w, r.caller)
      && (s'.workspaces[w].members != s.workspaces[w].members ==> IsOwnChoice(s, r, w))
  {
    hide Handle, Invariant;
    var s', caller := Handle(s, r.caller, r.step).state, r.caller;
    match r.step
    case AddMember(v, target, role) => AddMemberExactly(s, caller, v, target, role);
    case ChangeRole(v, target, role) => ChangeRoleExactly(s, caller, v, target, role);
    case RemoveMember(v, target) => RemoveMemberExactly(s, caller, v, target);
    case TransferOwnership(v, target) => TransferExactly(s, caller, v, target);
    case Leave(v) => LeaveExactly(s, caller, v);
    case Subscribe(v) => SubscribeExactly(s, caller, v);
    case AcceptInvitation(i) => AcceptExactly(s, caller, i);
    case CreateWorkspace(v, discoverable, orgAllows) => CreateWorkspaceExactly(s, caller, v, discoverable, orgAllows);
    case _ => hide OnlyMember, NoNewInvitation, ManagerPower; RestPowerless(s, r, w);
  }

  lemma RestPowerless(s: State, r: Request, w: Id)
    requires w in s.workspaces && !ManagerPower(s, r.caller, w) && !ChangesRoles(r.step)
    ensures var s' := Handle(s, r.caller, r.step).state;
      OnlyMember(s, s', w, r.caller) && NoNewInvitation(s, s', w, r.caller) && s'.workspaces[w].members == s.workspaces[w].members
  {
    if r.step.SetArchived? || r.step.SetVisibility? || r.step.SetSettings? { FlagsPowerless(s, r, w); }
    else if ChangesInvitations(r.step) { InvitesPowerless(s, r, w); }
    else { ElsewhereSame(s, r); }
    hide Handle, ManagerPower, IsOpen;
  }

  lemma FlagsPowerless(s: State, r: Request, w: Id)
    requires w in s.workspaces && !ManagerPower(s, r.caller, w) && (r.step.SetArchived? || r.step.SetVisibility? || r.step.SetSettings?)
    ensures var s' := Handle(s, r.caller, r.step).state;
      OnlyMember(s, s', w, r.caller) && NoNewInvitation(s, s', w, r.caller) && s'.workspaces[w].members == s.workspaces[w].members
  {
    hide Handle;
    match r.step
    case SetArchived(v, on) => ArchiveExactly(s, r.caller, v, on);
    case SetVisibility(v, on) => VisibilityExactly(s, r.caller, v, on);
    case SetSettings(v, on) => SettingsExactly(s, r.caller, v, on);
  }

  lemma InvitesPowerless(s: State, r: Request, w: Id)
    requires w in s.workspaces && !ManagerPower(s, r.caller, w) && ChangesInvitations(r.step) && !ChangesRoles(r.step)
    ensures var s' := Handle(s, r.caller, r.step).state;
      OnlyMember(s, s', w, r.caller) && NoNewInvitation(s, s', w, r.caller) && s'.workspaces[w].members == s.workspaces[w].members
  {
    hide Handle, IsInvited, IsOpen;
    match r.step
    case Invite(v, i, role) => InviteExactly(s, r.caller, v, i, None, role);
    case InviteUser(v, i, target, role) => InviteExactly(s, r.caller, v, i, Some(target), role);
    case RevokeToken(i) => RevokeExactly(s, r.caller, i);
    case DeclineInvitation(i) => DeclineExactly(s, r.caller, i);
  }

  /** Channel requests and those about accounts leave workspaces and invitations alone. */
  lemma ElsewhereSame(s: State, r: Request)
    requires IsChannelStep(r.step) || r.step.CreateUser? || r.step.Promote? || r.step.Demote?
    ensures var s' := Handle(s, r.caller, r.step).state; s'.workspaces == s.workspaces && s'.invitations == s.invitations
  {
    hide Handle, IsMember, IsOpen, InRoom, ChannelOf, IsArchived;
    var caller := r.caller;
    match r.step
    case CreateChannel(v, ch, isPublic) => CreateChannelExactly(s, caller, v, ch, isPublic);
    case JoinChannel(v, ch) => JoinExactly(s, caller, v, ch);
    case AddToChannel(v, ch, target) => AddToChannelExactly(s, caller, v, ch, target);
    case RemoveFromChannel(v, ch, target) => RemoveFromChannelExactly(s, caller, v, ch, target);
    case LeaveChannel(v, ch) => LeaveChannelExactly(s, caller, v, ch);
    case PostMessage(ch, text) => WriteExactly(s, caller, ch, 0, text);
    case RewriteMessage(ch, index, text) => WriteExactly(s, caller, ch, index, text);
    case CreateUser(target) => AdminsExactly(s, caller, target);
    case Promote(target) => AdminsExactly(s, caller, target);
    case Demote(target) => AdminsExactly(s, caller, target);
  }

  /** Of any request: the four columns of a workspace's row change only so. A manager archives
      only where managers may; all else takes the owner's power. */
  ghost predicate RowChangesOnlySo(s: State, t: State, r: Request, w: Id) {
    && w in s.workspaces && w in t.workspaces
    && (t.workspaces[w].archived != s.workspaces[w].archived ==>
          && r.step == SetArchived(w, t.workspaces[w].archived)
          && (OwnerPower(s, r.caller, w) || (Has(s, r.caller, w, MANAGER) && s.workspaces[w].managersCanArchive)))
    && (t.workspaces[w].discoverable != s.workspaces[w].discoverable ==>
          r.step == SetVisibility(w, t.workspaces[w].discoverable) && OwnerPower(s, r.caller, w) && IsOpen(s, w))
    && (t.workspaces[w].managersCanArchive != s.workspaces[w].managersCanArchive ==>
          r.step == SetSettings(w, t.workspaces[w].managersCanArchive) && OwnerPower(s, r.caller, w))
    && (t.workspaces[w].ownerId != s.workspaces[w].ownerId ==>
          r.step == TransferOwnership(w, t.workspaces[w].ownerId) && OwnerPower(s, r.caller, w) && IsOpen(s, w)
          && IsMember(s, t.workspaces[w].ownerId, w))
  }

  lemma RowsChangeOnlySo(s: State, r: Request, w: Id)
    requires Invariant(s) && w in s.workspaces
    ensures RowChangesOnlySo(s, Handle(s, r.caller, r.step).state, r, w)
  {
    hide Handle, Invariant;
    var caller := r.caller;
    match r.step
    case AddMember(v, target, role) => AddMemberExactly(s, caller, v, target, role);
    case ChangeRole(v, target, role) => ChangeRoleExactly(s, caller, v, target, role);
    case RemoveMember(v, target) => RemoveMemberExactly(s, caller, v, target);
    case TransferOwnership(v, target) => TransferExactly(s, caller, v, target);
    case Leave(v) => LeaveExactly(s, caller, v);
    case Subscribe(v) => SubscribeExactly(s, caller, v);
    case AcceptInvitation(i) => AcceptExactly(s, caller, i);
    case CreateWorkspace(v, discoverable, orgAllows) => CreateWorkspaceExactly(s, caller, v, discoverable, orgAllows);
    case AcceptToken(i, newUser, expired) => AcceptTokenExactly(s, caller, i, newUser, expired);
    case SetArchived(v, on) => ArchiveExactly(s, caller, v, on);
    case SetVisibility(v, on) => VisibilityExactly(s, caller, v, on);
    case SetSettings(v, on) => SettingsExactly(s, caller, v, on);
    case _ => RestSame(s, r);
  }

  lemma RestSame(s: State, r: Request)
    requires ChangesInvitations(r.step) || IsChannelStep(r.step) || r.step.CreateUser? || r.step.Promote? || r.step.Demote?
    requires !ChangesRoles(r.step)
    ensures Handle(s, r.caller, r.step).state.workspaces == s.workspaces
  {
    hide Handle, IsInvited, IsOpen, OwnerPower, IsMember;
    match r.step
    case Invite(v, i, role) => InviteExactly(s, r.caller, v, i, None, role);
    case InviteUser(v, i, target, role) => InviteExactly(s, r.caller, v, i, Some(target), role);
    case RevokeToken(i) => RevokeExactly(s, r.caller, i);
    case DeclineInvitation(i) => DeclineExactly(s, r.caller, i);
    case _ => ElsewhereSame(s, r);
  }
}
