/** The handlers whose transactions take several statements. Each statement may fail, and
    then the transaction is rolled back: what a request leaves is the handler's step or
    nothing, and a part of it would break what every run keeps. */
module WorkspaceStore {
  import opened JsText
  import opened Workspaces
  import opened WorkspaceRuns
  import Rights = WorkspaceRights

  /** The writes; an update or delete that matches no row changes nothing. */
  datatype Statement =
    | InsertUser(u: Id)
    | InsertWorkspace(w: Id, row: Workspace)
    | InsertMember(w: Id, u: Id, role: Role)
    | UpdateRole(w: Id, u: Id, role: Role)
    | UpdateOwner(w: Id, u: Id)
    | DeleteMember(w: Id, u: Id)
    | DeleteFromChannels(w: Id, u: Id)
    | InsertChannel(ch: Id, channel: Channel)
    | InsertChannelMember(ch: Id, u: Id)
    | ResolveInvitation(i: Id)
    | OtherTable                      // organization_members, refresh_tokens

  function WithMembers(s: State, w: Id, members: map<Id, Role>): State
    requires w in s.workspaces
  {
    WithWorkspace(s, w, s.workspaces[w].(members := members))
  }

  function Exec(s: State, st: Statement): State {
    match st
    case InsertUser(u) => s.(users := s.users + {u})
    case InsertWorkspace(w, row) => WithWorkspace(s, w, row)
    case InsertMember(w, u, role) => if w in s.workspaces then WithMember(s, w, u, role) else s
    case UpdateRole(w, u, role) => if RoleOf(s, u, w).Some? then WithMember(s, w, u, role) else s
    case UpdateOwner(w, u) => if w in s.workspaces then WithWorkspace(s, w, s.workspaces[w].(ownerId := u)) else s
    case DeleteMember(w, u) => if w in s.workspaces then WithMembers(s, w, s.workspaces[w].members - {u}) else s
    case DeleteFromChannels(w, u) => WithoutChannelMember(s, w, u)
    case InsertChannel(ch, row) => WithChannel(s, ch, row)
    case InsertChannelMember(ch, u) =>
      if ch in s.channels then WithChannel(s, ch, s.channels[ch].(members := s.channels[ch].members + {u})) else s
    case ResolveInvitation(i) => if i in s.invitations then Resolved(s, i) else s
    case OtherTable => s
  }

  function ExecAll(s: State, sts: seq<Statement>): State {
    if sts == [] then s else Exec(ExecAll(s, sts[..|sts| - 1]), sts[|sts| - 1])
  }

  function Removal(w: Id, u: Id): seq<Statement> { [DeleteFromChannels(w, u), DeleteMember(w, u)] }

  function Transfer(w: Id, currentOwner: Id, target: Id): seq<Statement> {
    [UpdateRole(w, currentOwner, MANAGER), UpdateRole(w, target, OWNER), UpdateOwner(w, target)]
  }

  function Creation(w: Id, owner: Id, discoverable: bool): seq<Statement> {
    [InsertWorkspace(w, Workspace(owner, map[], false, discoverable, false)), InsertMember(w, owner, OWNER)]
  }

  function Opening(w: Id, ch: Id, isPublic: bool, creator: Option<Id>): seq<Statement> {
    [InsertChannel(ch, Channel(w, isPublic, {}, []))] + if creator.Some? then [InsertChannelMember(ch, creator.value)] else []
  }

  function Redemption(i: Id, inv: Invitation, newUser: Id): seq<Statement> {
    [InsertUser(newUser), InsertMember(inv.workspaceId, newUser, inv.role), OtherTable, ResolveInvitation(i), OtherTable]
  }

  function Acceptance(i: Id, inv: Invitation, newMember: Option<Id>): seq<Statement> {
    (if newMember.Some? then [InsertMember(inv.workspaceId, newMember.value, inv.role)] else []) + [ResolveInvitation(i)]
  }

  // ------------------------------------------------- the statements add up to the step

  lemma ExecOne(s: State, a: Statement)
    ensures ExecAll(s, [a]) == Exec(s, a)
  {
    assert [a][..0] == [];
  }

  lemma ExecTwo(s: State, a: Statement, b: Statement)
    ensures ExecAll(s, [a, b]) == Exec(Exec(s, a), b)
  {
    hide Exec;
    ExecOne(s, a);
    assert [a, b][..1] == [a];
  }

  lemma ExecThree(s: State, a: Statement, b: Statement, c: Statement)
    ensures ExecAll(s, [a, b, c]) == Exec(Exec(Exec(s, a), b), c)
  {
    hide Exec;
    ExecTwo(s, a, b);
    assert [a, b, c][..2] == [a, b];
  }

  lemma CreationIsStep(s: State, w: Id, owner: Id, discoverable: bool)
    requires w !in s.workspaces && owner in s.users
    ensures Reply(ExecAll(s, Creation(w, owner, discoverable)), Ok) == DoCreateWorkspace(s, owner, w, discoverable, true)
  {
    var sts := Creation(w, owner, discoverable);
    ExecTwo(s, sts[0], sts[1]);
  }

  lemma RemovalIsStep(s: State, w: Id, u: Id)
    requires w in s.workspaces
    ensures ExecAll(s, Removal(w, u)) == WithoutMember(s, w, u)
  {
    ExecTwo(s, DeleteFromChannels(w, u), DeleteMember(w, u));
  }

  lemma UpdateRoleOn(s: State, w: Id, ms: map<Id, Role>, u: Id, role: Role)
    requires w in s.workspaces
    ensures Exec(WithMembers(s, w, ms), UpdateRole(w, u, role)) == WithMembers(s, w, if u in ms then ms[u := role] else ms)
  {
  }

  lemma TransferIsStep(s: State, w: Id, currentOwner: Id, target: Id)
    requires w in s.workspaces
    ensures ExecAll(s, Transfer(w, currentOwner, target)) == Transferred(s, w, currentOwner, target)
  {
    var sts, ws := Transfer(w, currentOwner, target), s.workspaces[w];
    var demoted := if currentOwner in ws.members then ws.members[currentOwner := MANAGER] else ws.members;
    var promoted := if target in demoted then demoted[target := OWNER] else demoted;
    ExecThree(s, sts[0], sts[1], sts[2]);
    SameMembers(s, w);
    UpdateRoleOn(s, w, ws.members, currentOwner, MANAGER);
    UpdateRoleOn(s, w, demoted, target, OWNER);
    UpdateOwnerOn(s, w, promoted, target);
    hide ExecAll, Exec, WithMembers;
  }

  lemma SameMembers(s: State, w: Id)
    requires w in s.workspaces
    ensures WithMembers(s, w, s.workspaces[w].members) == s
  {
  }

  lemma UpdateOwnerOn(s: State, w: Id, ms: map<Id, Role>, u: Id)
    requires w in s.workspaces
    ensures Exec(WithMembers(s, w, ms), UpdateOwner(w, u)) == WithWorkspace(s, w, s.workspaces[w].(members := ms, ownerId := u))
  {
  }

  lemma OpeningIsStep(s: State, w: Id, ch: Id, isPublic: bool, creator: Option<Id>)
    ensures ExecAll(s, Opening(w, ch, isPublic, creator)) ==
            WithChannel(s, ch, Channel(w, isPublic, if creator.Some? then {creator.value} else {}, []))
  {
    var row := InsertChannel(ch, Channel(w, isPublic, {}, []));
    if creator.Some? {
      assert Opening(w, ch, isPublic, creator) == [row, InsertChannelMember(ch, creator.value)];
      ExecTwo(s, row, InsertChannelMember(ch, creator.value));
      assert {} + {creator.value} == {creator.value};
    } else {
      assert Opening(w, ch, isPublic, creator) == [row];
      ExecOne(s, row);
    }
  }

  lemma RedemptionIsStep(s: State, i: Id, newUser: Id)
    requires i in s.invitations && s.invitations[i].workspaceId in s.workspaces
    ensures var inv := s.invitations[i];
      ExecAll(s, Redemption(i, inv, newUser)) ==
      Resolved(WithMember(s.(users := s.users + {newUser}), inv.workspaceId, newUser, inv.role), i)
  {
    var sts, inv := Redemption(i, s.invitations[i], newUser), s.invitations[i];
    ExecFive(s, sts[0], sts[1], OtherTable, ResolveInvitation(i), OtherTable);
    hide ExecAll;
    var added := Exec(s, sts[0]);
    var joined := Exec(added, sts[1]);
    assert joined == WithMember(added, inv.workspaceId, newUser, inv.role);
    ResolvedThen(joined, i);
    hide Exec, Resolved;
  }

  lemma ResolvedThen(s: State, i: Id)
    requires i in s.invitations
    ensures Exec(Exec(Exec(s, OtherTable), ResolveInvitation(i)), OtherTable) == Resolved(s, i)
  {
  }

  lemma ExecFive(s: State, a: Statement, b: Statement, c: Statement, d: Statement, e: Statement)
    ensures ExecAll(s, [a, b, c, d, e]) == Exec(Exec(Exec(Exec(Exec(s, a), b), c), d), e)
  {
    hide Exec;
    ExecThree(s, a, b, c);
    assert [a, b, c, d][..3] == [a, b, c] && [a, b, c, d, e][..4] == [a, b, c, d];
  }

  lemma AcceptanceIsStep(s: State, i: Id, newMember: Option<Id>)
    requires i in s.invitations && s.invitations[i].workspaceId in s.workspaces
    ensures var inv := s.invitations[i];
      ExecAll(s, Acceptance(i, inv, newMember)) ==
      Resolved(if newMember.Some? then WithMember(s, inv.workspaceId, newMember.value, inv.role) else s, i)
  {
    var inv := s.invitations[i];
    hide ExecAll, Exec, Resolved;
    if newMember.Some? {
      InsertThenResolve(s, inv.workspaceId, newMember.value, inv.role, i);
      assert Acceptance(i, inv, newMember) == [InsertMember(inv.workspaceId, newMember.value, inv.role), ResolveInvitation(i)];
    } else {
      ExecOne(s, ResolveInvitation(i));
      ResolveIsResolved(s, i);
      assert Acceptance(i, inv, newMember) == [ResolveInvitation(i)];
    }
  }

  lemma InsertThenResolve(s: State, w: Id, u: Id, role: Role, i: Id)
    requires i in s.invitations && w in s.workspaces
    ensures ExecAll(s, [InsertMember(w, u, role), ResolveInvitation(i)]) == Resolved(WithMember(s, w, u, role), i)
  {
    ExecTwo(s, InsertMember(w, u, role), ResolveInvitation(i));
    hide ExecAll, Resolved;
    assert Exec(s, InsertMember(w, u, role)) == WithMember(s, w, u, role);
    ResolveIsResolved(WithMember(s, w, u, role), i);
    hide Exec;
  }

  lemma ResolveIsResolved(s: State, i: Id)
    requires i in s.invitations
    ensures Exec(s, ResolveInvitation(i)) == Resolved(s, i)
  {
  }

  // ------------------------------------------------------ what a part would break

  /** No part of a transfer leaves one OWNER that is owner_id. */
  lemma TransferNeedsAll(s: State, w: Id, target: Id, k: nat)
    requires Invariant(s) && w in s.workspaces && target in s.workspaces[w].members && target != s.workspaces[w].ownerId
    requires 0 < k < 3
    ensures var s' := ExecAll(s, Transfer(w, s.workspaces[w].ownerId, target)[..k]);
      w in s'.workspaces && !WorkspaceFits(s', s'.workspaces[w])
  {
    var owner := s.workspaces[w].ownerId;
    var sts := Transfer(w, owner, target);
    assert WorkspaceFits(s, s.workspaces[w]);
    ExecOne(s, sts[0]);
    ExecTwo(s, sts[0], sts[1]);
    assert sts[..1] == [sts[0]] && sts[..2] == [sts[0], sts[1]];
  }

  lemma CreationNeedsAll(s: State, w: Id, owner: Id, discoverable: bool)
    ensures var s' := ExecAll(s, Creation(w, owner, discoverable)[..1]);
      w in s'.workspaces && !WorkspaceFits(s', s'.workspaces[w])
  {
    var sts := Creation(w, owner, discoverable);
    ExecOne(s, sts[0]);
    assert sts[..1] == [sts[0]];
  }

  /** A part of a redemption would leave an account that locks its owner out: the token is
      still open, and redeeming it again is a conflict. */
  lemma RedemptionNeedsAll(s: State, i: Id, newUser: Id, k: nat)
    requires DoAcceptToken(s, i, newUser, false).outcome == Ok && 0 < k <= 3
    ensures var s' := ExecAll(s, Redemption(i, s.invitations[i], newUser)[..k]);
      DoAcceptToken(s', i, newUser, false) == Reply(s', Conflict)
  {
    OpenThenTaken(s, i, newUser);
    RedeemedInPart(s, i, newUser, k);
    hide ExecAll, Redemption;
    TakenConflicts(ExecAll(s, Redemption(i, s.invitations[i], newUser)[..k]), i, newUser);
  }

  lemma OpenThenTaken(s: State, i: Id, newUser: Id)
    requires DoAcceptToken(s, i, newUser, false).outcome == Ok
    ensures i in s.invitations && IsTaken(Exec(s, InsertUser(newUser)), i, newUser)
  {
    hide Resolved, WithMember;
  }

  lemma TakenConflicts(s: State, i: Id, newUser: Id)
    requires IsTaken(s, i, newUser)
    ensures DoAcceptToken(s, i, newUser, false) == Reply(s, Conflict)
  {
  }

  /** The account is there, the token still open, the workspace not archived. */
  predicate IsTaken(s: State, i: Id, newUser: Id) {
    && newUser in s.users && i in s.invitations && s.invitations[i].invitee.None? && s.invitations[i].pending
    && s.invitations[i].workspaceId in s.workspaces && !s.workspaces[s.invitations[i].workspaceId].archived
  }

  lemma {:induction false} RedeemedInPart(s: State, i: Id, newUser: Id, k: nat)
    requires IsTaken(Exec(s, InsertUser(newUser)), i, newUser) && 0 < k <= 3
    ensures IsTaken(ExecAll(s, Redemption(i, s.invitations[i], newUser)[..k]), i, newUser)
  {
    var sts := Redemption(i, s.invitations[i], newUser);
    if k == 1 {
      ExecOne(s, sts[0]);
      assert sts[..1] == [sts[0]];
    } else {
      RedeemedInPart(s, i, newUser, k - 1);
      assert sts[..k][..k - 1] == sts[..k - 1];
      StaysTaken(ExecAll(s, sts[..k - 1]), sts[k - 1], i, newUser);
      hide Exec, IsTaken;
    }
  }

  lemma StaysTaken(s: State, st: Statement, i: Id, newUser: Id)
    requires IsTaken(s, i, newUser) && (st.InsertMember? || st.OtherTable?)
    ensures IsTaken(Exec(s, st), i, newUser)
  {
  }

  /** A removal keeps the invariant at every statement, since the channels come first; the
      membership first would leave a stranger in a private channel. */
  lemma RemovalOrder(s: State, w: Id, u: Id, k: nat)
    requires Invariant(s) && w in s.workspaces && u != s.workspaces[w].ownerId && k <= 2
    ensures Invariant(ExecAll(s, Removal(w, u)[..k]))
    ensures (exists ch :: ChannelOf(s, ch, w) && !s.channels[ch].isPublic && InChannel(s, u, ch)) ==>
              !Invariant(Exec(s, DeleteMember(w, u)))
  {
    var sts := Removal(w, u);
    ChannelsLeftKeep(s, w, u);
    WithoutMemberFits(s, w, u);
    MembershipFirst(s, w, u);
    hide Invariant, WithoutMember, WithoutChannelMember;
    RemovalIsStep(s, w, u);
    ExecOne(s, sts[0]);
    assert sts[..0] == [] && sts[..1] == [sts[0]] && sts[..2] == sts;
  }

  lemma ChannelsLeftKeep(s: State, w: Id, u: Id)
    requires Invariant(s)
    ensures Invariant(WithoutChannelMember(s, w, u))
  {
  }

  lemma MembershipFirst(s: State, w: Id, u: Id)
    requires w in s.workspaces
    ensures (exists ch :: ChannelOf(s, ch, w) && !s.channels[ch].isPublic && InChannel(s, u, ch)) ==>
              !Invariant(Exec(s, DeleteMember(w, u)))
  {
    if ch :| ChannelOf(s, ch, w) && !s.channels[ch].isPublic && InChannel(s, u, ch) {
      assert !ChannelFits(Exec(s, DeleteMember(w, u)), s.channels[ch]);
    }
  }

  // ------------------------------------------------------------------ the handlers

  /** A request that threw changed nothing; one that was answered did all of its step. */
  predicate AllOrNothing(s: State, s': State, caller: Id, step: Step, answer: Option<Outcome>) {
    if answer.None? then s' == s else Reply(s', answer.value) == Handle(s, caller, step)
  }

  lemma TransferTakesPower(s: State, caller: Id, w: Id)
    ensures Permitted(s, caller, w, TRANSFER_OWNERSHIP) == Ok <==> Rights.OwnerPower(s, caller, w)
  {
  }

  class Database {
    var users: set<Id>
    var admins: set<Id>
    var workspaces: map<Id, Workspace>
    var channels: map<Id, Channel>
    var invitations: map<Id, Invitation>

    function Value(): State
      reads this
    {
      State(users, admins, workspaces, channels, invitations)
    }

    constructor (users: set<Id>, admins: set<Id>)
      ensures Value() == Initial(users, admins)
    {
      this.users, this.admins := users, admins;
      workspaces, channels, invitations := map[], map[], map[];
    }

    method Execute(st: Statement)
      modifies this
      ensures Value() == Exec(old(Value()), st)
    {
      match st
      case InsertUser(u) => users := users + {u};
      case InsertWorkspace(w, row) => workspaces := workspaces[w := row];
      case InsertMember(w, u, role) =>
        if w in workspaces { workspaces := workspaces[w := workspaces[w].(members := workspaces[w].members[u := role])]; }
      case UpdateRole(w, u, role) =>
        if w in workspaces && u in workspaces[w].members {
          workspaces := workspaces[w := workspaces[w].(members := workspaces[w].members[u := role])];
        }
      case UpdateOwner(w, u) =>
        if w in workspaces { workspaces := workspaces[w := workspaces[w].(ownerId := u)]; }
      case DeleteMember(w, u) =>
        if w in workspaces { workspaces := workspaces[w := workspaces[w].(members := workspaces[w].members - {u})]; }
      case DeleteFromChannels(w, u) =>
        channels := map ch | ch in channels ::
          if channels[ch].workspaceId == w then channels[ch].(members := channels[ch].members - {u}) else channels[ch];
      case InsertChannel(ch, row) => channels := channels[ch := row];
      case InsertChannelMember(ch, u) =>
        if ch in channels { channels := channels[ch := channels[ch].(members := channels[ch].members + {u})]; }
      case ResolveInvitation(i) =>
        if i in invitations { invitations := invitations[i := invitations[i].(pending := false)]; }
      case OtherTable =>
    }

    method Rollback(s: State)
      modifies this
      ensures Value() == s
    {
      users, admins, workspaces, channels, invitations := s.users, s.admins, s.workspaces, s.channels, s.invitations;
    }

    /** The statement at `failing` throws; past the last one it is the commit that does. */
    method RunTransaction(sts: seq<Statement>, failing: Option<nat>) returns (committed: bool)
      modifies this
      ensures committed <==> failing.None? || failing.value > |sts|
      ensures Value() == if committed then ExecAll(old(Value()), sts) else old(Value())
    {
      hide Exec;
      var saved := Value();
      for k := 0 to |sts|
        invariant Value() == ExecAll(saved, sts[..k])
        invariant failing.Some? ==> failing.value >= k
      {
        if failing == Some(k) {
          Rollback(saved);
          return false;
        }
        Execute(sts[k]);
        assert sts[..k + 1][..k] == sts[..k];
      }
      assert sts[..|sts|] == sts;
      committed := failing != Some(|sts|);
      if !committed { Rollback(saved); }
    }

    /** The answer, unless the transaction threw. */
    method Finish(sts: seq<Statement>, failing: Option<nat>) returns (answer: Option<Outcome>)
      modifies this
      ensures answer == if failing.None? || failing.value > |sts| then Some(Ok) else None
      ensures Value() == if answer.Some? then ExecAll(old(Value()), sts) else old(Value())
    {
      var committed := RunTransaction(sts, failing);
      return if committed then Some(Ok) else None;
    }

    method PostWorkspace(caller: Id, w: Id, discoverable: bool, orgAllows: bool, failing: Option<nat>) returns (answer: Option<Outcome>)
      modifies this
      ensures AllOrNothing(old(Value()), Value(), caller, CreateWorkspace(w, discoverable, orgAllows), answer)
      ensures failing.None? ==> answer.Some?
    {
      if !orgAllows || w in workspaces || caller !in users { return Some(Invalid); }
      CreationIsStep(Value(), w, caller, discoverable);
      hide DoCreateWorkspace, ExecAll;
      answer := Finish(Creation(w, caller, discoverable), failing);
    }

    method DeleteWorkspaceMember(caller: Id, w: Id, target: Id, failing: Option<nat>) returns (answer: Option<Outcome>)
      modifies this
      ensures AllOrNothing(old(Value()), Value(), caller, RemoveMember(w, target), answer)
      ensures failing.None? ==> answer.Some?
    {
      hide Permitted, ExecAll;
      var outcome := Permitted(Value(), caller, w, MANAGE_MEMBERS);
      if outcome != Ok { return Some(outcome); }
      if NotArchived(Value(), w) != Ok { return Some(Conflict); }
      if target !in workspaces[w].members { return Some(NotFound); }
      var role := workspaces[w].members[target];
      if role == OWNER { return Some(Conflict); }
      if role == MANAGER {
        outcome := Permitted(Value(), caller, w, MANAGE_MANAGERS);
        if outcome != Ok { return Some(outcome); }
      }
      RemovalIsStep(Value(), w, target);
      answer := Finish(Removal(w, target), failing);
    }

    method PostLeave(caller: Id, w: Id, failing: Option<nat>) returns (answer: Option<Outcome>)
      modifies this
      ensures AllOrNothing(old(Value()), Value(), caller, Leave(w), answer)
      ensures failing.None? ==> answer.Some?
    {
      hide ExecAll;
      if RoleOf(Value(), caller, w).None? { return Some(NotFound); }
      if workspaces[w].archived { return Some(Conflict); }
      if workspaces[w].members[caller] == OWNER { return Some(Conflict); }
      RemovalIsStep(Value(), w, caller);
      answer := Finish(Removal(w, caller), failing);
    }

    method PostTransferOwnership(caller: Id, w: Id, target: Id, failing: Option<nat>) returns (answer: Option<Outcome>)
      modifies this
      ensures AllOrNothing(old(Value()), Value(), caller, TransferOwnership(w, target), answer)
      ensures failing.None? ==> answer.Some?
      ensures answer == Some(Ok) ==> old(Rights.OwnerPower(Value(), caller, w))
    {
      TransferTakesPower(Value(), caller, w);
      hide Permitted, ExecAll, Rights.OwnerPower;
      var outcome := Permitted(Value(), caller, w, TRANSFER_OWNERSHIP);
      if outcome != Ok { return Some(outcome); }
      if NotArchived(Value(), w) != Ok { return Some(Conflict); }
      var currentOwnerId := workspaces[w].ownerId;
      if target !in workspaces[w].members || target == currentOwnerId { return Some(Invalid); }
      TransferIsStep(Value(), w, currentOwnerId, target);
      answer := Finish(Transfer(w, currentOwnerId, target), failing);
    }

    method PostChannel(caller: Id, w: Id, ch: Id, isPublic: bool, failing: Option<nat>) returns (answer: Option<Outcome>)
      modifies this
      ensures AllOrNothing(old(Value()), Value(), caller, CreateChannel(w, ch, isPublic), answer)
      ensures failing.None? ==> answer.Some?
    {
      hide ExecAll;
      var outcome := MemberOrAdmin(Value(), caller, w);
      if outcome != Ok { return Some(outcome); }
      var viaSystemAdminOverride := RoleOf(Value(), caller, w).None?;
      if workspaces[w].archived { return Some(Conflict); }
      if ch in channels { return Some(Invalid); }
      var creator := if viaSystemAdminOverride then None else Some(caller);
      OpeningIsStep(Value(), w, ch, isPublic, creator);
      answer := Finish(Opening(w, ch, isPublic, creator), failing);
    }

    method PostTokenAccept(i: Id, newUser: Id, expired: bool, failing: Option<nat>, ghost caller: Id) returns (answer: Option<Outcome>)
      modifies this
      ensures AllOrNothing(old(Value()), Value(), caller, AcceptToken(i, newUser, expired), answer)
      ensures failing.None? ==> answer.Some?
    {
      hide ExecAll;
      if i !in invitations || invitations[i].invitee.Some? || !invitations[i].pending || expired { return Some(NotFound); }
      var row := invitations[i];
      if row.workspaceId !in workspaces || workspaces[row.workspaceId].archived { return Some(NotFound); }
      if newUser in users { return Some(Conflict); }
      RedemptionIsStep(Value(), i, newUser);
      answer := Finish(Redemption(i, row, newUser), failing);
    }

    method PostInvitationAccept(caller: Id, i: Id, failing: Option<nat>) returns (answer: Option<Outcome>)
      requires caller in users
      modifies this
      ensures AllOrNothing(old(Value()), Value(), caller, AcceptInvitation(i), answer)
      ensures failing.None? ==> answer.Some?
    {
      hide ExecAll;
      if !OwnPending(Value(), caller, i) { return Some(NotFound); }
      var row := invitations[i];
      if row.workspaceId !in workspaces || workspaces[row.workspaceId].archived { return Some(Conflict); }
      var newMember := if caller in workspaces[row.workspaceId].members then None else Some(caller);
      AcceptanceIsStep(Value(), i, newMember);
      answer := Finish(Acceptance(i, row, newMember), failing);
    }
  }
}
