/** Workspaces over whole runs of requests: one owner each, where members may be, how
    roles change and who may change them, and the freeze of archived workspaces. */
module WorkspaceRuns {
  import opened JsText
  import opened Workspaces

  // -------------------------------------------------------------- the invariant

  /** Exactly one OWNER, and it is owner_id; members are users. */
  predicate WorkspaceFits(s: State, ws: Workspace) {
    && ws.ownerId in ws.members && ws.members[ws.ownerId] == OWNER
    && (forall u :: u in ws.members && ws.members[u] == OWNER ==> u == ws.ownerId)
    && ws.members.Keys <= s.users
  }

  /** Members of a private channel are members of its workspace. */
  predicate ChannelFits(s: State, c: Channel) {
    c.workspaceId in s.workspaces && (!c.isPublic ==> c.members <= s.workspaces[c.workspaceId].members.Keys)
  }

  ghost predicate Invariant(s: State) {
    && (forall w :: w in s.workspaces ==> WorkspaceFits(s, s.workspaces[w]))
    && (forall ch :: ch in s.channels ==> ChannelFits(s, s.channels[ch]))
    && (forall i :: i in s.invitations ==> s.invitations[i].role != OWNER)
  }

  /** The row keeps or grows its members, all of them users. */
  lemma WorkspaceKeeps(s: State, w: Id, ws: Workspace)
    requires Invariant(s) && WorkspaceFits(s, ws)
    requires w in s.workspaces ==> s.workspaces[w].members.Keys <= ws.members.Keys
    ensures Invariant(WithWorkspace(s, w, ws))
  {
  }

  lemma ChannelKeeps(s: State, ch: Id, c: Channel)
    requires Invariant(s) && ChannelFits(s, c)
    ensures Invariant(WithChannel(s, ch, c))
  {
  }

  /** Whoever is taken out of a workspace is out of its channels too; nobody else is. */
  lemma WithoutMemberKeeps(s: State, w: Id, u: Id)
    requires Invariant(s) && w in s.workspaces && u != s.workspaces[w].ownerId
    ensures var s' := WithoutMember(s, w, u);
      && Invariant(s') && RoleOf(s', u, w).None?
      && (forall ch :: ChannelOf(s', ch, w) ==> !InChannel(s', u, ch))
      && (forall ch, k :: k != u || !ChannelOf(s, ch, w) ==> (InChannel(s', k, ch) <==> InChannel(s, k, ch)))
  {
    assert RoleOf(WithoutMember(s, w, u), u, w).None?;
    WithoutMemberFits(s, w, u);
    hide Invariant, RoleOf;
  }

  lemma WithoutMemberFits(s: State, w: Id, u: Id)
    requires Invariant(s) && w in s.workspaces && u != s.workspaces[w].ownerId
    ensures Invariant(WithoutMember(s, w, u))
  {
  }

  predicate ChannelOf(s: State, ch: Id, w: Id) { ch in s.channels && s.channels[ch].workspaceId == w }

  /** The handler reads the owner, and sees that the target is a member, before its
      transaction. Whatever comes in between, the writes leave one OWNER, namely owner_id,
      exactly when the target is a member still and the owner that was read still is it,
      or the target has become it. */
  lemma StaleTransfer(s: State, w: Id, readOwner: Id, target: Id)
    requires Invariant(s) && w in s.workspaces && readOwner != target
    ensures var s', ws := Transferred(s, w, readOwner, target), s.workspaces[w];
      WorkspaceFits(s', s'.workspaces[w]) <==> target in ws.members && (readOwner == ws.ownerId || target == ws.ownerId)
  {
    var ws, owner := s.workspaces[w], s.workspaces[w].ownerId;
    assert WorkspaceFits(s, ws);
    var ws' := Transferred(s, w, readOwner, target).workspaces[w];
    if readOwner != owner && target != owner && target in ws.members {
      assert ws'.members[owner] == OWNER && owner != ws'.ownerId;
    }
  }

  /** A target who left in between: no OWNER row remains. */
  lemma DepartedTarget(s: State, w: Id, target: Id)
    requires Invariant(s) && w in s.workspaces && target !in s.workspaces[w].members
    ensures var ws' := Transferred(s, w, s.workspaces[w].ownerId, target).workspaces[w];
      ws'.ownerId == target && forall u :: u in ws'.members ==> ws'.members[u] != OWNER
  {
    assert WorkspaceFits(s, s.workspaces[w]);
  }

  /** Two transfers that read the same owner: two OWNER rows. */
  lemma RacingTransfers(s: State, w: Id, first: Id, second: Id)
    requires Invariant(s) && w in s.workspaces && first in s.workspaces[w].members && second in s.workspaces[w].members
    requires first != second && first != s.workspaces[w].ownerId && second != s.workspaces[w].ownerId
    ensures var owner := s.workspaces[w].ownerId;
      var ws' := Transferred(Transferred(s, w, owner, first), w, owner, second).workspaces[w];
      ws'.members[first] == OWNER && ws'.members[second] == OWNER
  {
  }

  /** The update of a role change, or the deletes of a removal or a leave, long after the
      handler saw that the target is not the OWNER: one OWNER row, that of owner_id,
      remains exactly when the target has not become the owner. */
  lemma StaleRoleChange(s: State, w: Id, target: Id, role: Role)
    requires Invariant(s) && w in s.workspaces && role != OWNER
    ensures var ws := s.workspaces[w];
      var s' := if target in ws.members then WithMember(s, w, target, role) else s;
      WorkspaceFits(s', s'.workspaces[w]) <==> target != ws.ownerId
  {
    assert WorkspaceFits(s, s.workspaces[w]);
  }

  lemma StaleRemoval(s: State, w: Id, target: Id)
    requires Invariant(s) && w in s.workspaces
    ensures var s' := WithoutMember(s, w, target);
      WorkspaceFits(s', s'.workspaces[w]) <==> target != s.workspaces[w].ownerId
  {
    assert WorkspaceFits(s, s.workspaces[w]);
  }

  lemma InvitationKeeps(s: State, i: Id, inv: Invitation)
    requires Invariant(s) && inv.role != OWNER
    ensures Invariant(WithInvitation(s, i, inv))
  {
  }

  lemma AddMemberKeeps(s: State, caller: Id, w: Id, target: Id, role: Role)
    requires Invariant(s)
    ensures Invariant(DoAddMember(s, caller, w, target, role).state)
  {
  }

  lemma ChangeRoleKeeps(s: State, caller: Id, w: Id, target: Id, role: Role)
    requires Invariant(s)
    ensures Invariant(DoChangeRole(s, caller, w, target, role).state)
  {
  }

  lemma RemoveKeeps(s: State, caller: Id, w: Id, target: Id)
    requires Invariant(s)
    ensures Invariant(DoRemoveMember(s, caller, w, target).state)
  {
  }

  lemma LeaveKeeps(s: State, caller: Id, w: Id)
    requires Invariant(s)
    ensures Invariant(DoLeave(s, caller, w).state)
  {
  }

  lemma DoTransferKeeps(s: State, caller: Id, w: Id, target: Id)
    requires Invariant(s)
    ensures Invariant(DoTransfer(s, caller, w, target).state)
  {
  }

  lemma SubscribeKeeps(s: State, caller: Id, w: Id)
    requires Invariant(s)
    ensures Invariant(DoSubscribe(s, caller, w).state)
  {
  }

  lemma RowKeeps(s: State, caller: Id, step: Step)
    requires Invariant(s)
    requires step.CreateWorkspace? || step.SetArchived? || step.SetVisibility? || step.SetSettings?
    ensures Invariant(Handle(s, caller, step).state)
  {
    var s' := Handle(s, caller, step).state;
    if step.w in s.workspaces { assert WorkspaceFits(s, s.workspaces[step.w]); }
    hide Permitted, NotArchived;
    if s' != s { WorkspaceKeeps(s, step.w, s'.workspaces[step.w]); }
  }

  lemma InvitesKeep(s: State, caller: Id, step: Step)
    requires Invariant(s)
    requires step.Invite? || step.InviteUser? || step.AcceptToken? || step.AcceptInvitation? || step.DeclineInvitation? || step.RevokeToken?
    ensures Invariant(Handle(s, caller, step).state)
  {
    var s' := Handle(s, caller, step).state;
    if s' != s {
      if step.AcceptToken? { AcceptTokenKeeps(s, step.i, step.newUser, step.expired); }
      else if step.AcceptInvitation? { AcceptKeeps(s, caller, step.i); }
      else {
        hide Permitted, NotArchived, HasPending, WorkspaceFits, ChannelFits;
        assert step.i in s.invitations ==> s.invitations[step.i].role != OWNER;
        InvitationKeeps(s, step.i, s'.invitations[step.i]);
      }
    }
  }

  /** The newcomer is a member with the role of the invitation. */
  lemma AcceptTokenKeeps(s: State, i: Id, newUser: Id, expired: bool)
    requires Invariant(s)
    ensures var r := DoAcceptToken(s, i, newUser, expired);
      && Invariant(r.state)
      && (r.outcome == Ok ==> RoleOf(r.state, newUser, s.invitations[i].workspaceId) == Some(s.invitations[i].role))
  {
  }

  /** Who is a member already keeps his role, and so does everybody else. */
  lemma AcceptKeeps(s: State, caller: Id, i: Id)
    requires Invariant(s)
    ensures var r := DoAcceptInvitation(s, caller, i);
      && Invariant(r.state)
      && (forall w, u :: RoleOf(s, u, w).Some? ==> RoleOf(r.state, u, w) == RoleOf(s, u, w))
      && (forall w, u :: RoleOf(s, u, w).None? && RoleOf(r.state, u, w).Some? ==>
            u == caller && r.outcome == Ok && w == s.invitations[i].workspaceId && RoleOf(r.state, u, w) == Some(s.invitations[i].role))
  {
    AcceptedFits(s, caller, i);
    hide Invariant;
  }

  lemma AcceptedFits(s: State, caller: Id, i: Id)
    requires Invariant(s)
    ensures Invariant(DoAcceptInvitation(s, caller, i).state)
  {
  }

  predicate IsChannelStep(step: Step) {
    || step.CreateChannel? || step.JoinChannel? || step.AddToChannel? || step.RemoveFromChannel? || step.LeaveChannel?
    || step.PostMessage? || step.RewriteMessage?
  }

  lemma CreateChannelKeeps(s: State, caller: Id, w: Id, ch: Id, isPublic: bool)
    requires Invariant(s)
    ensures Invariant(DoCreateChannel(s, caller, w, ch, isPublic).state)
  {
    hide Invariant;
    var r := DoCreateChannel(s, caller, w, ch, isPublic);
    if r.outcome == Ok { ChannelKeeps(s, ch, r.state.channels[ch]); }
  }

  /** A channel that is there, with other members or messages. */
  lemma ChannelChangeKeeps(s: State, ch: Id, members: set<Id>, messages: seq<Text>)
    requires Invariant(s) && ch in s.channels
    requires members <= s.channels[ch].members || s.channels[ch].isPublic || members <= s.workspaces[s.channels[ch].workspaceId].members.Keys
    ensures Invariant(WithChannel(s, ch, s.channels[ch].(members := members, messages := messages)))
  {
    assert ChannelFits(s, s.channels[ch]);
    hide Invariant;
    ChannelKeeps(s, ch, s.channels[ch].(members := members, messages := messages));
  }

  lemma JoinChannelKeeps(s: State, caller: Id, w: Id, ch: Id)
    requires Invariant(s)
    ensures Invariant(DoJoinChannel(s, caller, w, ch).state)
  {
    hide Invariant, MemberOrAdmin, NotArchived;
    if DoJoinChannel(s, caller, w, ch).outcome == Ok {
      ChannelChangeKeeps(s, ch, s.channels[ch].members + {caller}, s.channels[ch].messages);
    }
  }

  lemma AddToChannelKeeps(s: State, caller: Id, w: Id, ch: Id, target: Id)
    requires Invariant(s)
    ensures Invariant(DoAddToChannel(s, caller, w, ch, target).state)
  {
    var r := DoAddToChannel(s, caller, w, ch, target);
    if r.outcome == Ok {
      assert ch in s.channels && ChannelFits(s, s.channels[ch]);
      hide Invariant;
      ChannelKeeps(s, ch, s.channels[ch].(members := s.channels[ch].members + {target}));
    }
  }

  lemma RemoveFromChannelKeeps(s: State, caller: Id, w: Id, ch: Id, target: Id)
    requires Invariant(s)
    ensures Invariant(DoRemoveFromChannel(s, caller, w, ch, target).state)
  {
    hide Invariant, NotArchived;
    if DoRemoveFromChannel(s, caller, w, ch, target).outcome == Ok {
      ChannelChangeKeeps(s, ch, s.channels[ch].members - {target}, s.channels[ch].messages);
    }
  }

  lemma LeaveChannelKeeps(s: State, caller: Id, w: Id, ch: Id)
    requires Invariant(s)
    ensures Invariant(DoLeaveChannel(s, caller, w, ch).state)
  {
    hide Invariant, NotArchived;
    if DoLeaveChannel(s, caller, w, ch).outcome == Ok {
      ChannelChangeKeeps(s, ch, s.channels[ch].members - {caller}, s.channels[ch].messages);
    }
  }

  lemma PostKeeps(s: State, caller: Id, ch: Id, text: Text)
    requires Invariant(s)
    ensures Invariant(DoPost(s, caller, ch, text).state)
  {
    hide Invariant, NotArchived;
    if DoPost(s, caller, ch, text).outcome == Ok {
      ChannelChangeKeeps(s, ch, s.channels[ch].members, s.channels[ch].messages + [text]);
    }
  }

  lemma RewriteKeeps(s: State, caller: Id, ch: Id, index: nat, text: Text)
    requires Invariant(s)
    ensures Invariant(DoRewrite(s, caller, ch, index, text).state)
  {
    hide Invariant, NotArchived;
    if DoRewrite(s, caller, ch, index, text).outcome == Ok {
      ChannelChangeKeeps(s, ch, s.channels[ch].members, s.channels[ch].messages[index := text]);
    }
  }

  lemma ChannelsKeep(s: State, caller: Id, step: Step)
    requires Invariant(s) && IsChannelStep(step)
    ensures Invariant(Handle(s, caller, step).state)
  {
    hide Invariant, DoCreateChannel, DoJoinChannel, DoAddToChannel, DoRemoveFromChannel, DoLeaveChannel, DoPost, DoRewrite;
    match step
    case CreateChannel(w, ch, isPublic) => CreateChannelKeeps(s, caller, w, ch, isPublic);
    case JoinChannel(w, ch) => JoinChannelKeeps(s, caller, w, ch);
    case AddToChannel(w, ch, target) => AddToChannelKeeps(s, caller, w, ch, target);
    case RemoveFromChannel(w, ch, target) => RemoveFromChannelKeeps(s, caller, w, ch, target);
    case LeaveChannel(w, ch) => LeaveChannelKeeps(s, caller, w, ch);
    case PostMessage(ch, text) => PostKeeps(s, caller, ch, text);
    case RewriteMessage(ch, index, text) => RewriteKeeps(s, caller, ch, index, text);
  }

  lemma HandleKeeps(s: State, caller: Id, step: Step)
    requires Invariant(s)
    ensures Invariant(Handle(s, caller, step).state)
  {
    hide Invariant, Permitted, NotArchived, RoleOf, HasPending, DoCreateWorkspace, DoInvite, DoAcceptToken, DoAcceptInvitation, DoRevoke;
    hide DoCreateChannel, DoJoinChannel, DoAddToChannel, DoRemoveFromChannel, DoLeaveChannel, DoPost, DoRewrite;
    hide DoAddMember, DoChangeRole, DoRemoveMember, DoLeave, DoTransfer, DoSubscribe, DoCreateUser, DoPromote, DoDemote;
    match step
    case AddMember(w, target, role) => AddMemberKeeps(s, caller, w, target, role);
    case ChangeRole(w, target, role) => ChangeRoleKeeps(s, caller, w, target, role);
    case RemoveMember(w, target) => RemoveKeeps(s, caller, w, target);
    case Leave(w) => LeaveKeeps(s, caller, w);
    case TransferOwnership(w, target) => DoTransferKeeps(s, caller, w, target);
    case Subscribe(w) => SubscribeKeeps(s, caller, w);
    case _ =>
      hide Handle;
      if IsChannelStep(step) { ChannelsKeep(s, caller, step); }
      else if step.CreateWorkspace? || step.SetArchived? || step.SetVisibility? || step.SetSettings? { RowKeeps(s, caller, step); }
      else if step.CreateUser? || step.Promote? || step.Demote? { AdminsKeep(s, caller, step); }
      else { InvitesKeep(s, caller, step); }
  }

  lemma AdminsKeep(s: State, caller: Id, step: Step)
    requires Invariant(s) && (step.CreateUser? || step.Promote? || step.Demote?)
    ensures Invariant(Handle(s, caller, step).state)
  {
    hide RoleOf, Permitted;
  }

  /** Somebody always is system administrator: who demotes another one is. */
  lemma AdminsRemain(s: State, caller: Id, step: Step)
    requires s.admins != {}
    ensures Handle(s, caller, step).state.admins != {}
  {
    hide Permitted, NotArchived, HasPending, RoleOf;
    if step.Demote? && caller in s.admins && step.target != caller {
      assert caller in Handle(s, caller, step).state.admins;
    }
  }

  datatype Request = Request(caller: Id, step: Step)

  function Run(s: State, requests: seq<Request>): State {
    if requests == [] then s else
    var last := requests[|requests| - 1];
    Handle(Run(s, requests[..|requests| - 1]), last.caller, last.step).state
  }

  /** A deployment with its first users and system administrators. */
  function Initial(users: set<Id>, admins: set<Id>): State { State(users, admins, map[], map[], map[]) }

  /** After any run: one OWNER per workspace, namely owner_id; private channels hold
      workspace members only; and there is a system administrator if there was one. */
  lemma {:induction false} RunKeeps(users: set<Id>, admins: set<Id>, requests: seq<Request>)
    ensures Invariant(Run(Initial(users, admins), requests))
    ensures admins != {} ==> Run(Initial(users, admins), requests).admins != {}
  {
    hide Handle;
    if requests == [] {
    } else {
      hide Invariant;
      var before, last := Run(Initial(users, admins), requests[..|requests| - 1]), requests[|requests| - 1];
      RunKeeps(users, admins, requests[..|requests| - 1]);
      HandleKeeps(before, last.caller, last.step);
      if admins != {} { AdminsRemain(before, last.caller, last.step); }
    }
  }

  // -------------------------------------------------------------------- guests

  /** In the channel, and no member of its workspace. */
  predicate IsGuest(s: State, ch: Id, u: Id) {
    InChannel(s, u, ch) && RoleOf(s, u, s.channels[ch].workspaceId).None?
  }

  /** A system administrator's own join of a public channel. */
  predicate JoinsAsAdmin(s: State, r: Request, ch: Id, u: Id) {
    && r.caller == u && u in s.admins && ch in s.channels && s.channels[ch].isPublic
    && r.step == JoinChannel(s.channels[ch].workspaceId, ch)
  }

  lemma NewGuestJoined(s: State, r: Request, ch: Id, u: Id)
    requires Invariant(s) && IsGuest(Handle(s, r.caller, r.step).state, ch, u) && !IsGuest(s, ch, u)
    ensures JoinsAsAdmin(s, r, ch, u)
  {
    hide Invariant;
    if IsChannelStep(r.step) { GuestByChannelStep(s, r, ch, u); }
    else if ChangesRoles(r.step) { NoGuestByRole(s, r, ch, u); }
    else { NoGuestOtherwise(s, r, ch, u); }
  }

  lemma GuestByChannelStep(s: State, r: Request, ch: Id, u: Id)
    requires IsChannelStep(r.step) && IsGuest(Handle(s, r.caller, r.step).state, ch, u) && !IsGuest(s, ch, u)
    ensures JoinsAsAdmin(s, r, ch, u)
  {
  }

  lemma NoGuestByRole(s: State, r: Request, ch: Id, u: Id)
    requires Invariant(s) && ChangesRoles(r.step) && IsGuest(Handle(s, r.caller, r.step).state, ch, u)
    ensures IsGuest(s, ch, u)
  {
    hide Permitted, NotArchived, RoleOf, IsGuest, WithMember, WithoutMember, Transferred;
    var step := r.step;
    if step.RemoveMember? && Handle(s, r.caller, step).outcome == Ok { NoGuestWithout(s, step.w, step.target, ch, u); }
    else if step.Leave? && Handle(s, r.caller, step).outcome == Ok { NoGuestWithout(s, step.w, r.caller, ch, u); }
    else if Handle(s, r.caller, step).state != s { NoGuestByGrowth(s, r, ch, u); }
  }

  lemma NoGuestWithout(s: State, w: Id, gone: Id, ch: Id, u: Id)
    requires Invariant(s) && w in s.workspaces && IsGuest(WithoutMember(s, w, gone), ch, u)
    ensures IsGuest(s, ch, u)
  {
  }

  lemma NoGuestByGrowth(s: State, r: Request, ch: Id, u: Id)
    requires Invariant(s) && ChangesRoles(r.step) && !r.step.RemoveMember? && !r.step.Leave?
    requires IsGuest(Handle(s, r.caller, r.step).state, ch, u)
    ensures IsGuest(s, ch, u)
  {
    hide Permitted, NotArchived;
  }

  lemma NoGuestOtherwise(s: State, r: Request, ch: Id, u: Id)
    requires !IsChannelStep(r.step) && !ChangesRoles(r.step) && IsGuest(Handle(s, r.caller, r.step).state, ch, u)
    ensures IsGuest(s, ch, u)
  {
    hide Permitted, NotArchived, HasPending;
  }

  /** In every run, whoever is in a channel and no member of its workspace joined it
      himself, as the system administrator he was then, and the channel is public. */
  lemma {:induction false} GuestJoinedAsAdmin(users: set<Id>, admins: set<Id>, requests: seq<Request>, ch: Id, u: Id) returns (k: nat)
    requires IsGuest(Run(Initial(users, admins), requests), ch, u)
    ensures k < |requests| && JoinsAsAdmin(Run(Initial(users, admins), requests[..k]), requests[k], ch, u)
  {
    hide Handle, Invariant, IsGuest, JoinsAsAdmin;
    var n := |requests| - 1;
    assert requests != [] by { NoGuestAtFirst(users, admins, ch, u); }
    var before := Run(Initial(users, admins), requests[..n]);
    RunKeeps(users, admins, requests[..n]);
    if IsGuest(before, ch, u) {
      k := GuestJoinedAsAdmin(users, admins, requests[..n], ch, u);
      assert requests[..n][..k] == requests[..k];
    } else {
      NewGuestJoined(before, requests[n], ch, u);
      k := n;
    }
  }

  lemma NoGuestAtFirst(users: set<Id>, admins: set<Id>, ch: Id, u: Id)
    ensures !IsGuest(Initial(users, admins), ch, u)
  {
  }

  /** He may be administrator no more: a demotion takes nobody out of a channel. */
  lemma DemotedGuestStays(s: State, caller: Id, w: Id, ch: Id, u: Id)
    requires u in s.admins && u in s.users && caller in s.admins && caller != u
    requires ChannelOf(s, ch, w) && s.channels[ch].isPublic && w in s.workspaces && !s.workspaces[w].archived && RoleOf(s, u, w).None?
    ensures var s' := Handle(Handle(s, u, JoinChannel(w, ch)).state, caller, Demote(u)).state;
      IsGuest(s', ch, u) && u !in s'.admins
  {
  }

  /** So it goes in a run from the start: user 3 opens a public channel, administrator 1
      joins it, administrator 2 demotes him. */
  lemma DemotedGuestReachable()
    ensures var requests := [Request(3, CreateWorkspace(0, false, true)), Request(3, CreateChannel(0, 0, true)),
                             Request(1, JoinChannel(0, 0)), Request(2, Demote(1))];
      var s := Run(Initial({1, 2, 3}, {1, 2}), requests); IsGuest(s, 0, 1) && 1 !in s.admins
  {
    var requests := [Request(3, CreateWorkspace(0, false, true)), Request(3, CreateChannel(0, 0, true)),
                     Request(1, JoinChannel(0, 0)), Request(2, Demote(1))];
    var s0 := Initial({1, 2, 3}, {1, 2});
    var s1 := Handle(s0, 3, CreateWorkspace(0, false, true)).state;
    var s2 := Handle(s1, 3, CreateChannel(0, 0, true)).state;
    assert s1.workspaces == map[0 := Workspace(3, map[3 := OWNER], false, false, false)];
    assert s2.channels == map[0 := Channel(0, true, {3}, [])];
    DemotedGuestStays(s2, 2, 0, 0, 1);
    hide Handle, IsGuest;
    assert requests[..0] == [] && requests[..1][..0] == [] && requests[..2][..1] == requests[..1];
    assert requests[..3][..2] == requests[..2] && requests[..4][..3] == requests[..3] && requests[..4] == requests;
    assert Run(s0, requests[..1]) == s1;
    assert Run(s0, requests[..2]) == s2;
    assert Run(s0, requests[..3]) == Handle(s2, 1, JoinChannel(0, 0)).state;
  }

  // --------------------------------------------------------------------- roles

  predicate Accepts(r: Request, i: Id, u: Id) {
    (r.step == AcceptInvitation(i) && r.caller == u) || (r.step.AcceptToken? && r.step.i == i && r.step.newUser == u)
  }

  predicate Allowed(s: State, r: Request, w: Id, p: Permission) { Permitted(s, r.caller, w, p) == Ok }

  /** The ways in which user `u`'s role in workspace `w` can change from `old_` to `new_`. */
  predicate RoleChange(s: State, r: Request, w: Id, u: Id, old_: Option<Role>, new_: Option<Role>) {
    match r.step
    case CreateWorkspace(v, _, _) => v == w && r.caller == u && old_ == None && new_ == Some(OWNER)
    case Subscribe(v) => v == w && r.caller == u && old_ == None && new_ == Some(MEMBER)
    case AddMember(v, target, role) =>
      v == w && target == u && old_ == None && new_ == Some(role) && Allowed(s, r, w, RolePermission(role))
    case ChangeRole(v, target, role) =>
      && v == w && target == u && (old_ == Some(MANAGER) || old_ == Some(MEMBER)) && new_ == Some(role)
      && Allowed(s, r, w, MANAGE_MEMBERS) && ((old_ == Some(MANAGER) || role == MANAGER) ==> Allowed(s, r, w, MANAGE_MANAGERS))
    case RemoveMember(v, target) =>
      && v == w && target == u && (old_ == Some(MANAGER) || old_ == Some(MEMBER)) && new_ == None
      && Allowed(s, r, w, MANAGE_MEMBERS) && (old_ == Some(MANAGER) ==> Allowed(s, r, w, MANAGE_MANAGERS))
    case Leave(v) => v == w && r.caller == u && (old_ == Some(MANAGER) || old_ == Some(MEMBER)) && new_ == None
    case TransferOwnership(v, target) =>
      && v == w && Allowed(s, r, w, TRANSFER_OWNERSHIP)
      && (if u == target then (old_ == Some(MANAGER) || old_ == Some(MEMBER)) && new_ == Some(OWNER)
          else old_ == Some(OWNER) && new_ == Some(MANAGER))
    case AcceptToken(i, _, _) => AcceptsChange(s, r, i, w, u, old_, new_)
    case AcceptInvitation(i) => AcceptsChange(s, r, i, w, u, old_, new_)
    case _ => false
  }

  predicate AcceptsChange(s: State, r: Request, i: Id, w: Id, u: Id, old_: Option<Role>, new_: Option<Role>) {
    && Accepts(r, i, u) && old_ == None
    && i in s.invitations && s.invitations[i].pending && s.invitations[i].workspaceId == w && new_ == Some(s.invitations[i].role)
  }

  predicate ChangesRoles(step: Step) {
    || step.CreateWorkspace? || step.Subscribe? || step.AddMember? || step.ChangeRole? || step.RemoveMember? || step.Leave?
    || step.TransferOwnership? || step.AcceptToken? || step.AcceptInvitation?
  }

  lemma RolesSame(s: State, r: Request, w: Id, u: Id)
    requires !ChangesRoles(r.step)
    ensures RoleOf(Handle(s, r.caller, r.step).state, u, w) == RoleOf(s, u, w)
  {
    hide Permitted, NotArchived, HasPending;
  }

  lemma OwnRolesChange(s: State, r: Request, w: Id, u: Id)
    requires Invariant(s) && (r.step.CreateWorkspace? || r.step.Subscribe? || r.step.Leave? || r.step.TransferOwnership?)
    ensures var new_ := RoleOf(Handle(s, r.caller, r.step).state, u, w);
      new_ != RoleOf(s, u, w) ==> RoleChange(s, r, w, u, RoleOf(s, u, w), new_)
  {
  }

  lemma OthersRolesChange(s: State, r: Request, w: Id, u: Id)
    requires r.step.AddMember? || r.step.ChangeRole? || r.step.RemoveMember?
    ensures var new_ := RoleOf(Handle(s, r.caller, r.step).state, u, w);
      new_ != RoleOf(s, u, w) ==> RoleChange(s, r, w, u, RoleOf(s, u, w), new_)
  {
    hide Permitted, NotArchived;
  }

  lemma AcceptRolesChange(s: State, r: Request, w: Id, u: Id)
    requires Invariant(s) && (r.step.AcceptToken? || r.step.AcceptInvitation?)
    ensures var new_ := RoleOf(Handle(s, r.caller, r.step).state, u, w);
      new_ != RoleOf(s, u, w) ==> RoleChange(s, r, w, u, RoleOf(s, u, w), new_)
  {
  }

  /** Every change of a role, in any handler, is one of those, by a caller who may. */
  lemma RolesChangeOnlySo(s: State, r: Request, w: Id, u: Id)
    requires Invariant(s)
    ensures var new_ := RoleOf(Handle(s, r.caller, r.step).state, u, w);
      new_ != RoleOf(s, u, w) ==> RoleChange(s, r, w, u, RoleOf(s, u, w), new_)
  {
    hide Handle, RoleChange, RoleOf;
    if !ChangesRoles(r.step) { RolesSame(s, r, w, u); }
    else if r.step.AcceptToken? || r.step.AcceptInvitation? { AcceptRolesChange(s, r, w, u); }
    else if r.step.AddMember? || r.step.ChangeRole? || r.step.RemoveMember? { OthersRolesChange(s, r, w, u); }
    else { OwnRolesChange(s, r, w, u); }
  }

  // ------------------------------------------------------------------ managers

  predicate IsManager(s: State, w: Id, u: Id) { RoleOf(s, u, w) == Some(MANAGER) }

  predicate IsManagerInvitation(s: State, w: Id, i: Id) {
    i in s.invitations && s.invitations[i].pending && s.invitations[i].workspaceId == w && s.invitations[i].role == MANAGER
  }

  /** Who may manage managers grants the role, an OWNER steps down to it, or the user
      redeems an invitation that names it. */
  predicate GrantsManager(s: State, r: Request, w: Id, u: Id) {
    || (r.step == AddMember(w, u, MANAGER) && Allowed(s, r, w, MANAGE_MANAGERS))
    || (r.step == ChangeRole(w, u, MANAGER) && Allowed(s, r, w, MANAGE_MANAGERS))
    || (r.step.TransferOwnership? && r.step.w == w && RoleOf(s, u, w) == Some(OWNER) && Allowed(s, r, w, TRANSFER_OWNERSHIP))
    || ((r.step.AcceptInvitation? || r.step.AcceptToken?) && Accepts(r, r.step.i, u) && IsManagerInvitation(s, w, r.step.i))
  }

  predicate GrantsInvitation(s: State, r: Request, w: Id, i: Id) {
    (r.step.Invite? || r.step.InviteUser?) && r.step.w == w && r.step.i == i && Allowed(s, r, w, MANAGE_MANAGERS)
  }

  /** A MANAGER row appears only by such a grant. */
  lemma NewManagerGranted(s: State, r: Request, w: Id, u: Id)
    requires Invariant(s) && IsManager(Handle(s, r.caller, r.step).state, w, u) && !IsManager(s, w, u)
    ensures GrantsManager(s, r, w, u)
  {
    hide Handle, Invariant, Allowed, RoleOf;
    RolesChangeOnlySo(s, r, w, u);
  }

  predicate ChangesInvitations(step: Step) {
    step.Invite? || step.InviteUser? || step.AcceptToken? || step.AcceptInvitation? || step.DeclineInvitation? || step.RevokeToken?
  }

  lemma InvitationsSame(s: State, r: Request)
    requires !ChangesInvitations(r.step)
    ensures Handle(s, r.caller, r.step).state.invitations == s.invitations
  {
    hide Permitted, NotArchived, HasPending, RoleOf;
  }

  lemma InviteGrants(s: State, caller: Id, v: Id, j: Id, invitee: Option<Id>, role: Role, w: Id, i: Id)
    requires IsManagerInvitation(DoInvite(s, caller, v, j, invitee, role).state, w, i) && !IsManagerInvitation(s, w, i)
    ensures v == w && j == i && Permitted(s, caller, w, MANAGE_MANAGERS) == Ok
  {
    hide Permitted, NotArchived, HasPending, RoleOf;
  }

  lemma ResolvingGrantsNothing(s: State, r: Request, w: Id, i: Id)
    requires ChangesInvitations(r.step) && !r.step.Invite? && !r.step.InviteUser?
    ensures IsManagerInvitation(Handle(s, r.caller, r.step).state, w, i) ==> IsManagerInvitation(s, w, i)
  {
    hide Permitted, NotArchived, RoleOf;
  }

  lemma NewInvitationGranted(s: State, r: Request, w: Id, i: Id)
    requires IsManagerInvitation(Handle(s, r.caller, r.step).state, w, i) && !IsManagerInvitation(s, w, i)
    ensures GrantsInvitation(s, r, w, i)
  {
    if !ChangesInvitations(r.step) { InvitationsSame(s, r); }
    else if r.step.Invite? { InviteGrants(s, r.caller, r.step.w, r.step.i, None, r.step.role, w, i); }
    else if r.step.InviteUser? { InviteGrants(s, r.caller, r.step.w, r.step.i, Some(r.step.target), r.step.role, w, i); }
    else { ResolvingGrantsNothing(s, r, w, i); }
    hide DoInvite, Permitted, ChangesInvitations;
  }

  /** A caller who is a MANAGER of the workspace and no more makes nobody a MANAGER,
      invites nobody as one, and unmakes none but himself. */
  lemma ManagersCannotManageManagers(s: State, r: Request, w: Id, u: Id, i: Id)
    requires Invariant(s) && IsManager(s, w, r.caller) && r.caller !in s.admins && !r.step.AcceptToken?
    ensures var s' := Handle(s, r.caller, r.step).state;
      && (IsManager(s', w, u) ==> IsManager(s, w, u))
      && (IsManager(s, w, u) && !IsManager(s', w, u) ==> u == r.caller)
      && (IsManagerInvitation(s', w, i) ==> IsManagerInvitation(s, w, i))
  {
    hide Handle, Invariant, GrantsManager;
    var s' := Handle(s, r.caller, r.step).state;
    RolesChangeOnlySo(s, r, w, u);
    if IsManagerInvitation(s', w, i) && !IsManagerInvitation(s, w, i) { NewInvitationGranted(s, r, w, i); }
  }

  /** In every run, every MANAGER traces back to a grant, and every invitation to the role
      to a caller who could manage managers when it was made. */
  lemma {:induction false} ManagerProvenance(users: set<Id>, admins: set<Id>, requests: seq<Request>, w: Id, u: Id) returns (k: nat)
    requires IsManager(Run(Initial(users, admins), requests), w, u)
    ensures k < |requests| && GrantsManager(Run(Initial(users, admins), requests[..k]), requests[k], w, u)
  {
    hide Handle, GrantsManager, Invariant, IsManager;
    var n := |requests| - 1;
    assert requests != [] by { NobodyAtFirst(users, admins, w, u, 0); }
    var before := Run(Initial(users, admins), requests[..n]);
    RunKeeps(users, admins, requests[..n]);
    if IsManager(before, w, u) {
      k := ManagerProvenance(users, admins, requests[..n], w, u);
      assert requests[..n][..k] == requests[..k];
    } else {
      NewManagerGranted(before, requests[n], w, u);
      k := n;
    }
  }

  lemma {:induction false} InvitationProvenance(users: set<Id>, admins: set<Id>, requests: seq<Request>, w: Id, i: Id) returns (k: nat)
    requires IsManagerInvitation(Run(Initial(users, admins), requests), w, i)
    ensures k < |requests| && GrantsInvitation(Run(Initial(users, admins), requests[..k]), requests[k], w, i)
  {
    hide Handle, GrantsInvitation, IsManagerInvitation;
    var n := |requests| - 1;
    assert requests != [] by { NobodyAtFirst(users, admins, w, 0, i); }
    var before := Run(Initial(users, admins), requests[..n]);
    if IsManagerInvitation(before, w, i) {
      k := InvitationProvenance(users, admins, requests[..n], w, i);
      assert requests[..n][..k] == requests[..k];
    } else {
      NewInvitationGranted(before, requests[n], w, i);
      k := n;
    }
  }

  lemma NobodyAtFirst(users: set<Id>, admins: set<Id>, w: Id, u: Id, i: Id)
    ensures !IsManager(Initial(users, admins), w, u) && !IsManagerInvitation(Initial(users, admins), w, i)
  {
  }

  // -------------------------------------------------------------------- freeze

  predicate IsArchived(s: State, w: Id) { w in s.workspaces && s.workspaces[w].archived }

  /** The same members, owner, channels, channel members and messages. */
  ghost predicate SameContents(s: State, t: State, w: Id) {
    && w in s.workspaces && w in t.workspaces
    && s.workspaces[w].members == t.workspaces[w].members && s.workspaces[w].ownerId == t.workspaces[w].ownerId
    && forall ch :: (ChannelOf(s, ch, w) <==> ChannelOf(t, ch, w)) && (ChannelOf(s, ch, w) ==> s.channels[ch] == t.channels[ch])
  }

  lemma RowsFrozen(s: State, r: Request, w: Id)
    requires IsArchived(s, w) && ChangesRoles(r.step)
    ensures SameContents(s, Handle(s, r.caller, r.step).state, w)
  {
  }

  lemma ChannelsFrozen(s: State, r: Request, w: Id)
    requires IsArchived(s, w) && IsChannelStep(r.step)
    ensures SameContents(s, Handle(s, r.caller, r.step).state, w)
  {
    hide RoleOf;
  }

  lemma FlagsFrozen(s: State, r: Request, w: Id)
    requires IsArchived(s, w) && !IsChannelStep(r.step) && !ChangesRoles(r.step)
    ensures SameContents(s, Handle(s, r.caller, r.step).state, w)
  {
    hide Permitted, HasPending, RoleOf;
  }

  lemma ArchivedStepFrozen(s: State, r: Request, w: Id)
    requires IsArchived(s, w)
    ensures SameContents(s, Handle(s, r.caller, r.step).state, w)
  {
    hide Handle, SameContents;
    if ChangesRoles(r.step) { RowsFrozen(s, r, w); }
    else if IsChannelStep(r.step) { ChannelsFrozen(s, r, w); }
    else { FlagsFrozen(s, r, w); }
  }

  ghost predicate StaysArchived(s: State, requests: seq<Request>, w: Id) {
    IsArchived(s, w) && forall k :: 0 <= k < |requests| ==> IsArchived(Run(s, requests[..k]), w)
  }

  /** While it stays archived nothing in the workspace changes, whatever is requested. */
  lemma {:induction false} ArchivedFrozen(s: State, requests: seq<Request>, w: Id)
    requires StaysArchived(s, requests, w)
    ensures SameContents(s, Run(s, requests), w)
  {
    hide Handle;
    if requests == [] {
    } else {
      var n := |requests| - 1;
      assert forall k :: 0 <= k < n ==> requests[..n][..k] == requests[..k];
      ArchivedFrozen(s, requests[..n], w);
      ArchivedStepFrozen(Run(s, requests[..n]), requests[n], w);
    }
  }
}
