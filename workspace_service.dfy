/**
 * Workspace use cases: creation with the creator as OWNER, reading, renaming,
 * soft deletion, inviting a user by e-mail and removing a membership. Every
 * call but creation starts from the caller's membership of the workspace; a
 * caller without one gets WORKSPACE_ACCESS_DENIED. Nothing is written when a
 * call fails.
 */
module WorkspaceService {
  import opened Common
  import opened BaseEntity
  import opened Members
  import opened Entities
  import opened StoreState
  import NotificationService

  datatype WorkspaceRequest = WorkspaceRequest(name: string, description: Option<string>)

  /** A workspace as the API returns it, with the caller's role in it. */
  datatype WorkspaceView = WorkspaceView(workspace: Workspace, role: Role)

  datatype InviteRequest = InviteRequest(email: string, role: Role)

  /** The creator's membership is the only one of a fresh workspace, and it is an OWNER's. */
  lemma CreatorIsOwner(members: map<MemberId, WorkspaceMember>, mid: MemberId, ws: WorkspaceId, userId: UserId)
    requires UniquePairs(members) && mid !in members
    requires forall k :: k in members ==> members[k].workspace != ws
    ensures UniquePairs(members[mid := WorkspaceMember(mid, ws, userId, Owner)])
    ensures Guard(members[mid := WorkspaceMember(mid, ws, userId, Owner)], ws, userId, Ownership,
                  WorkspaceAccessDenied, WorkspaceDeleteDenied).None?
    ensures FindMember(members[mid := WorkspaceMember(mid, ws, userId, Owner)], ws, userId) == Some(mid)
  {
    AddKeepsPairsUnique(members, WorkspaceMember(mid, ws, userId, Owner));
  }

  /**
   * createWorkspace: for an existing user, a new live workspace owned by them
   * and exactly one membership, theirs, with role OWNER.
   */
  method CreateWorkspace(db: Store, userId: UserId, req: WorkspaceRequest, now: Time) returns (r: Result<WorkspaceView>)
    requires db.Valid()
    modifies db`workspaces, db`members, db`nextId
    ensures db.Valid()
    ensures userId !in db.users <==> r == Err(UserNotFound)
    ensures r.Err? ==> db.workspaces == old(db.workspaces) && db.members == old(db.members) && db.nextId == old(db.nextId)
    ensures r.Ok? ==> (
      var ws := r.value.workspace.id;
      ws !in old(db.workspaces) && r.value.role == Owner
      && r.value.workspace == Workspace(ws, req.name, req.description, userId, Created(now))
      && db.workspaces == old(db.workspaces)[ws := r.value.workspace]
      && exists mid :: mid !in old(db.members)
                       && db.members == old(db.members)[mid := WorkspaceMember(mid, ws, userId, Owner)])
  {
    if userId !in db.users { return Err(UserNotFound); }
    var ws := db.NewId();
    var w := Workspace(ws, req.name, req.description, userId, Created(now));
    db.InsertWorkspace(w);
    var mid := db.NewId();
    CreatorIsOwner(db.members, mid, ws, userId);
    db.PutMember(WorkspaceMember(mid, ws, userId, Owner));
    r := Ok(WorkspaceView(w, Owner));
  }

  /**
   * getMyWorkspaces: the workspaces the user holds a membership in, each with
   * the role of that membership.
   */
  function MyWorkspaces(workspaces: map<WorkspaceId, Workspace>, members: map<MemberId, WorkspaceMember>, userId: UserId)
    : (r: set<WorkspaceView>)
    ensures forall v :: v in r <==>
      v.workspace in workspaces.Values
      && exists k :: k in members && IsMembership(members[k], v.workspace.id, userId) && members[k].role == v.role
  {
    set w, k | w in workspaces.Values && k in members && IsMembership(members[k], w.id, userId)
      :: WorkspaceView(w, members[k].role)
  }

  /**
   * The lookup every call on an existing workspace starts with, in the order
   * the operation makes it: the workspace row (WORKSPACE_NOT_FOUND) and the
   * guarded membership.
   */
  function WorkspaceAccess(workspaces: map<WorkspaceId, Workspace>, members: map<MemberId, WorkspaceMember>,
                           userId: UserId, ws: WorkspaceId, c: Capability, denied: ErrorCode): (r: Result<WorkspaceView>)
    requires UniquePairs(members)
    ensures ws !in workspaces ==> r == Err(WorkspaceNotFound)
    ensures ws in workspaces ==>
      var g := Guard(members, ws, userId, c, WorkspaceAccessDenied, denied);
      (g.Some? ==> r == Err(g.value))
      && (g.None? ==> r.Ok? && r.value.workspace == workspaces[ws]
                      && FindMember(members, ws, userId).Some?
                      && r.value.role == members[FindMember(members, ws, userId).value].role)
  {
    if ws !in workspaces then Err(WorkspaceNotFound)
    else
      var g := Guard(members, ws, userId, c, WorkspaceAccessDenied, denied);
      if g.Some? then Err(g.value)
      else Ok(WorkspaceView(workspaces[ws], members[FindMember(members, ws, userId).value].role))
  }

  /** getWorkspace: the workspace, deleted or not, and the caller's role, for any member. */
  function GetWorkspace(workspaces: map<WorkspaceId, Workspace>, members: map<MemberId, WorkspaceMember>,
                        userId: UserId, ws: WorkspaceId): (r: Result<WorkspaceView>)
    requires UniquePairs(members)
    ensures r.Ok? <==> ws in workspaces && FindMember(members, ws, userId).Some?
    ensures ws !in workspaces ==> r == Err(WorkspaceNotFound)
    ensures ws in workspaces && FindMember(members, ws, userId).None? ==> r == Err(WorkspaceAccessDenied)
    ensures r.Ok? ==> r.value.workspace == workspaces[ws]
  {
    WorkspaceAccess(workspaces, members, userId, ws, AnyRole, WorkspaceAccessDenied)
  }

  /**
   * updateWorkspace: OWNER or ADMIN rename the workspace and replace its
   * description. The refusal carries WORKSPACE_DELETE_DENIED, as written,
   * although WORKSPACE_UPDATE_DENIED exists.
   */
  method UpdateWorkspace(db: Store, userId: UserId, ws: WorkspaceId, req: WorkspaceRequest) returns (r: Result<WorkspaceView>)
    requires db.Valid()
    modifies db`workspaces
    ensures db.Valid()
    ensures var a := WorkspaceAccess(old(db.workspaces), db.members, userId, ws, ManageProjects, WorkspaceDeleteDenied);
      (a.Err? ==> r == Err(a.error) && db.workspaces == old(db.workspaces))
      && (a.Ok? ==> r.Ok? && r.value.role == a.value.role
                    && r.value.workspace == old(db.workspaces)[ws].UpdateInfo(req.name, req.description)
                    && db.workspaces == old(db.workspaces)[ws := r.value.workspace])
  {
    var a := WorkspaceAccess(db.workspaces, db.members, userId, ws, ManageProjects, WorkspaceDeleteDenied);
    if a.Err? { return Err(a.error); }
    var w := db.workspaces[ws].UpdateInfo(req.name, req.description);
    db.workspaces := db.workspaces[ws := w];
    r := Ok(WorkspaceView(w, a.value.role));
  }

  /** deleteWorkspace: only the OWNER, and only a soft delete; projects and memberships stay. */
  method DeleteWorkspace(db: Store, userId: UserId, ws: WorkspaceId, now: Time) returns (r: Result<()>)
    requires db.Valid()
    modifies db`workspaces
    ensures db.Valid()
    ensures var a := WorkspaceAccess(old(db.workspaces), db.members, userId, ws, Ownership, WorkspaceDeleteDenied);
      (a.Err? ==> r == Err(a.error) && db.workspaces == old(db.workspaces))
      && (a.Ok? ==> r.Ok? && db.workspaces == old(db.workspaces)[ws := old(db.workspaces)[ws].(life := old(db.workspaces)[ws].life.Delete(now))])
  {
    var a := WorkspaceAccess(db.workspaces, db.members, userId, ws, Ownership, WorkspaceDeleteDenied);
    if a.Err? { return Err(a.error); }
    var w := db.workspaces[ws];
    db.workspaces := db.workspaces[ws := w.(life := w.life.Delete(now))];
    r := Ok(());
  }

  /**
   * The checks of inviteMember, in source order: the inviter's membership
   * (WORKSPACE_ACCESS_DENIED) and right to manage members
   * (MEMBER_INVITE_DENIED), a requested role other than OWNER
   * (CANNOT_ASSIGN_OWNER), a user with the e-mail (EMAIL_NOT_FOUND), no
   * membership of theirs yet (MEMBER_ALREADY_EXISTS), the workspace row
   * (WORKSPACE_NOT_FOUND) and the inviter's user row (USER_NOT_FOUND).
   */
  function InviteCheck(workspaces: map<WorkspaceId, Workspace>, members: map<MemberId, WorkspaceMember>,
                       users: map<UserId, User>, userId: UserId, ws: WorkspaceId, req: InviteRequest): (r: Result<UserId>)
    requires UniquePairs(members) && UniqueEmails(users)
    ensures var g := Guard(members, ws, userId, ManageMembers, WorkspaceAccessDenied, MemberInviteDenied);
      (g.Some? ==> r == Err(g.value))
      && (g.None? && req.role == Owner ==> r == Err(CannotAssignOwner))
      && (g.None? && req.role != Owner && UserByEmail(users, req.email).None? ==> r == Err(EmailNotFound))
      && (g.None? && req.role != Owner && UserByEmail(users, req.email).Some? ==>
            var invitee := UserByEmail(users, req.email).value;
            (FindMember(members, ws, invitee).Some? ==> r == Err(MemberAlreadyExists))
            && (FindMember(members, ws, invitee).None? && ws !in workspaces ==> r == Err(WorkspaceNotFound))
            && (FindMember(members, ws, invitee).None? && ws in workspaces && userId !in users ==> r == Err(UserNotFound))
            && (FindMember(members, ws, invitee).None? && ws in workspaces && userId in users ==> r == Ok(invitee)))
    ensures r.Ok? ==> r.value in users && users[r.value].email == req.email && req.role != Owner
                      && FindMember(members, ws, r.value).None? && ws in workspaces && userId in users
  {
    var g := Guard(members, ws, userId, ManageMembers, WorkspaceAccessDenied, MemberInviteDenied);
    if g.Some? then Err(g.value)
    else if req.role == Owner then Err(CannotAssignOwner)
    else match UserByEmail(users, req.email)
      case None => Err(EmailNotFound)
      case Some(invitee) =>
        if FindMember(members, ws, invitee).Some? then Err(MemberAlreadyExists)
        else if ws !in workspaces then Err(WorkspaceNotFound)
        else if userId !in users then Err(UserNotFound)
        else Ok(invitee)
  }

  /** Adding the membership of a user who has none in the workspace keeps the pairs unique. */
  lemma AddKeepsPairsUnique(members: map<MemberId, WorkspaceMember>, m: WorkspaceMember)
    requires UniquePairs(members) && m.id !in members
    requires FindMember(members, m.workspace, m.user).None?
    ensures UniquePairs(members[m.id := m])
    ensures FindMember(members[m.id := m], m.workspace, m.user) == Some(m.id)
  {
    var after := members[m.id := m];
    FindsItsOwnPair(after, m.id);
  }

  /**
   * inviteMember: exactly one new membership, with the requested role, and one
   * MEMBER_INVITED notification to the invitee; no push is sent.
   */
  method InviteMember(db: Store, userId: UserId, ws: WorkspaceId, req: InviteRequest) returns (r: Result<WorkspaceMember>)
    requires db.Valid()
    modifies db`members, db`nextId, db`notifications
    ensures db.Valid()
    ensures var c := InviteCheck(db.workspaces, old(db.members), db.users, userId, ws, req);
      (c.Err? ==> r == Err(c.error)) && (c.Ok? ==> r.Ok? && r.value.user == c.value)
    ensures r.Err? ==> db.members == old(db.members) && db.nextId == old(db.nextId) && db.notifications == old(db.notifications)
    ensures r.Ok? ==> (
      r.value.id !in old(db.members) && r.value.workspace == ws && r.value.role == req.role && req.role != Owner
      && FindMember(old(db.members), ws, r.value.user).None?
      && db.members == old(db.members)[r.value.id := r.value]
      && r.value.user in db.users && userId in db.users && ws in db.workspaces
      && db.notifications == old(db.notifications)
           + [NotificationService.InvitedNotification(db.users[r.value.user], db.users[userId], db.workspaces[ws].name, ws)])
  {
    var c := InviteCheck(db.workspaces, db.members, db.users, userId, ws, req);
    if c.Err? { return Err(c.error); }
    var mid := db.NewId();
    var m := WorkspaceMember(mid, ws, c.value, req.role);
    AddKeepsPairsUnique(db.members, m);
    db.members := db.members[mid := m];
    NotificationService.SendMemberInvitedNotification(db, db.users[c.value], db.users[userId], db.workspaces[ws].name, ws);
    r := Ok(m);
  }

  /** Inviting the same e-mail twice: the second call finds the first membership and is refused with MEMBER_ALREADY_EXISTS. */
  lemma SecondInviteRefused(workspaces: map<WorkspaceId, Workspace>, members: map<MemberId, WorkspaceMember>,
                            users: map<UserId, User>, userId: UserId, ws: WorkspaceId, req: InviteRequest, mid: MemberId)
    requires UniquePairs(members) && UniqueEmails(users) && mid !in members
    requires InviteCheck(workspaces, members, users, userId, ws, req).Ok?
    ensures var m := WorkspaceMember(mid, ws, InviteCheck(workspaces, members, users, userId, ws, req).value, req.role);
      UniquePairs(members[mid := m])
      && InviteCheck(workspaces, members[mid := m], users, userId, ws, req) == Err(MemberAlreadyExists)
  {
    var invitee := InviteCheck(workspaces, members, users, userId, ws, req).value;
    var m := WorkspaceMember(mid, ws, invitee, req.role);
    AddKeepsPairsUnique(members, m);
    var after := members[mid := m];
    var k := FindMember(members, ws, userId).value;
    assert after[k] == members[k];
    assert k != mid;
    assert FindMember(after, ws, userId) == Some(k) by {
      var j := FindMember(after, ws, userId).value;
      assert IsMembership(after[j], ws, userId);
    }
    assert FindMember(after, ws, invitee).Some? by {
      assert mid in after && IsMembership(after[mid], ws, invitee);
    }
  }

  /** getMembers: for any member, the memberships of the workspace. */
  function GetMembers(members: map<MemberId, WorkspaceMember>, userId: UserId, ws: WorkspaceId): (r: Result<set<WorkspaceMember>>)
    requires UniquePairs(members)
    ensures r.Err? <==> FindMember(members, ws, userId).None?
    ensures r.Err? ==> r.error == WorkspaceAccessDenied
    ensures r.Ok? ==> forall m :: m in r.value <==> m in members.Values && m.workspace == ws
  {
    if FindMember(members, ws, userId).None? then Err(WorkspaceAccessDenied)
    else Ok(set m | m in members.Values && m.workspace == ws)
  }

  /**
   * The checks of removeMember as written: the caller's membership
   * (WORKSPACE_ACCESS_DENIED) and right to manage members
   * (MEMBER_REMOVE_DENIED), the target membership by its own id
   * (MEMBER_NOT_FOUND), then CANNOT_REMOVE_OWNER for every target that is
   * NOT an owner. The target's workspace is never compared with ws.
   */
  function RemoveCheck(members: map<MemberId, WorkspaceMember>, userId: UserId, ws: WorkspaceId, target: MemberId)
    : (r: Option<ErrorCode>)
    requires UniquePairs(members)
    ensures var g := Guard(members, ws, userId, ManageMembers, WorkspaceAccessDenied, MemberRemoveDenied);
      (g.Some? ==> r == g)
      && (g.None? && target !in members ==> r == Some(MemberNotFound))
      && (g.None? && target in members ==> (r == Some(CannotRemoveOwner) <==> members[target].role != Owner))
    ensures r.None? ==> target in members && members[target].role == Owner
  {
    var g := Guard(members, ws, userId, ManageMembers, WorkspaceAccessDenied, MemberRemoveDenied);
    if g.Some? then g
    else if target !in members then Some(MemberNotFound)
    else if !members[target].IsOwner() then Some(CannotRemoveOwner)
    else None
  }

  /** removeMember as written: the membership goes only when it is an OWNER's. */
  method RemoveMember(db: Store, userId: UserId, ws: WorkspaceId, target: MemberId) returns (r: Result<()>)
    requires db.Valid()
    modifies db`members
    ensures db.Valid()
    ensures var c := RemoveCheck(old(db.members), userId, ws, target);
      (c.Some? ==> r == Err(c.value) && db.members == old(db.members))
      && (c.None? ==> r.Ok? && db.members == Without(old(db.members), {target}))
  {
    var c := RemoveCheck(db.members, userId, ws, target);
    if c.Some? { return Err(c.value); }
    db.members := Without(db.members, {target});
    r := Ok(());
  }

  /** No MEMBER, ADMIN or VIEWER membership can ever be removed. */
  lemma OnlyOwnersRemovable(members: map<MemberId, WorkspaceMember>, userId: UserId, ws: WorkspaceId, target: MemberId)
    requires UniquePairs(members) && target in members && members[target].role != Owner
    ensures RemoveCheck(members, userId, ws, target).Some?
  {
  }

  /**
   * An OWNER of one workspace removes the OWNER membership of another workspace
   * by naming its id.
   */
  lemma RemoveAcrossWorkspaces()
    ensures var members := map[1 := WorkspaceMember(1, 10, 100, Owner), 2 := WorkspaceMember(2, 20, 200, Owner)];
      UniquePairs(members) && members[2].workspace != 10 && RemoveCheck(members, 100, 10, 2).None?
  {
    var members := map[1 := WorkspaceMember(1, 10, 100, Owner), 2 := WorkspaceMember(2, 20, 200, Owner)];
    FindsItsOwnPair(members, 1);
  }
}
