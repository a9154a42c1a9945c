/**
 * Workspace membership: the four roles, the capability checks each service asks
 * of a membership, and the lookup by (workspace, user) that every service's
 * findMemberOrThrow helper performs.
 */
module Members {
  import opened Common

  datatype Role = Owner | Admin | Member | Viewer

  /** The privilege order of the roles, independent of the capability checks. */
  function Rank(r: Role): nat
  {
    match r
      case Owner => 3
      case Admin => 2
      case Member => 1
      case Viewer => 0
  }

  datatype WorkspaceMember = WorkspaceMember(id: MemberId, workspace: WorkspaceId, user: UserId, role: Role)
  {
    /** The role is replaced; the membership stays the same pair. */
    function ChangeRole(newRole: Role): (m: WorkspaceMember)
      ensures m.role == newRole
      ensures m.id == id && m.workspace == workspace && m.user == user
    {
      this.(role := newRole)
    }

    /** Each capability is a threshold on the privilege order. */
    function CanManageMembers(): (r: bool)
      ensures r <==> Rank(role) >= 2
    {
      role == Owner || role == Admin
    }

    function CanManageProjects(): (r: bool)
      ensures r <==> Rank(role) >= 2
    {
      role == Owner || role == Admin
    }

    function CanEditTasks(): (r: bool)
      ensures r <==> Rank(role) >= 1
    {
      role != Viewer
    }

    function IsOwner(): (r: bool)
      ensures r <==> Rank(role) == 3
    {
      role == Owner
    }
  }

  /** A more privileged role can do everything a less privileged one can. */
  lemma CapabilitiesMonotone(a: WorkspaceMember, b: WorkspaceMember)
    requires Rank(a.role) <= Rank(b.role)
    ensures a.IsOwner() ==> b.IsOwner()
    ensures a.CanManageMembers() ==> b.CanManageMembers()
    ensures a.CanManageProjects() ==> b.CanManageProjects()
    ensures a.CanEditTasks() ==> b.CanEditTasks()
  {
  }

  /** The unique constraint on (workspace_id, user_id). */
  predicate UniquePairs(members: map<MemberId, WorkspaceMember>)
  {
    forall a, b ::
      a in members && b in members && IsMembership(members[b], members[a].workspace, members[a].user) ==> a == b
  }

  predicate IsMembership(m: WorkspaceMember, ws: WorkspaceId, user: UserId)
  {
    m.workspace == ws && m.user == user
  }

  /** findByWorkspaceIdAndUserId: the one membership of the pair, if any. */
  function FindMember(members: map<MemberId, WorkspaceMember>, ws: WorkspaceId, user: UserId): (r: Option<MemberId>)
    requires UniquePairs(members)
    ensures r.Some? ==> r.value in members && IsMembership(members[r.value], ws, user)
    ensures r.None? ==> forall k :: k in members ==> !IsMembership(members[k], ws, user)
  {
    if exists k :: k in members && IsMembership(members[k], ws, user) then
      var k :| k in members && IsMembership(members[k], ws, user);
      Some(k)
    else
      None
  }

  /** findMemberOrThrow: the membership of the pair, or the error code the calling service uses. */
  function MemberOrThrow(members: map<MemberId, WorkspaceMember>, ws: WorkspaceId, user: UserId, missing: ErrorCode)
    : (r: Result<WorkspaceMember>)
    requires UniquePairs(members)
    ensures r.Ok? <==> exists k :: k in members && IsMembership(members[k], ws, user)
    ensures r.Ok? ==> r.value in members.Values && IsMembership(r.value, ws, user)
    ensures r.Err? ==> r.error == missing
  {
    match FindMember(members, ws, user)
      case None => Err(missing)
      case Some(k) => Ok(members[k])
  }

  /** The capability a service asks of a caller's membership before it acts. */
  datatype Capability = AnyRole | ManageMembers | ManageProjects | EditTasks | Ownership

  predicate Allows(m: WorkspaceMember, c: Capability)
  {
    match c
      case AnyRole => true
      case ManageMembers => m.CanManageMembers()
      case ManageProjects => m.CanManageProjects()
      case EditTasks => m.CanEditTasks()
      case Ownership => m.IsOwner()
  }

  /**
   * The guard every service runs: no membership of the pair gives the
   * service's "missing" code, a membership without the capability its
   * "denied" code; the call may proceed exactly when a membership of the pair
   * has the capability.
   */
  function Guard(members: map<MemberId, WorkspaceMember>, ws: WorkspaceId, user: UserId, c: Capability,
                 missing: ErrorCode, denied: ErrorCode): (r: Option<ErrorCode>)
    requires UniquePairs(members)
    ensures FindMember(members, ws, user).None? ==> r == Some(missing)
    ensures FindMember(members, ws, user).Some? ==>
      r == (if Allows(members[FindMember(members, ws, user).value], c) then None else Some(denied))
    ensures r.None? <==> exists k :: k in members && IsMembership(members[k], ws, user) && Allows(members[k], c)
  {
    match FindMember(members, ws, user)
      case None => Some(missing)
      case Some(k) => if Allows(members[k], c) then None else Some(denied)
  }

  /** Whether a guard lets a role through depends only on the role, in the privilege order. */
  lemma GuardMonotone(members: map<MemberId, WorkspaceMember>, ws: WorkspaceId, user: UserId, c: Capability,
                      missing: ErrorCode, denied: ErrorCode)
    requires UniquePairs(members)
    requires FindMember(members, ws, user).Some?
    ensures c == Ownership ==> (Guard(members, ws, user, c, missing, denied).None? <==> Rank(members[FindMember(members, ws, user).value].role) == 3)
    ensures c == ManageProjects || c == ManageMembers ==>
      (Guard(members, ws, user, c, missing, denied).None? <==> Rank(members[FindMember(members, ws, user).value].role) >= 2)
    ensures c == EditTasks ==> (Guard(members, ws, user, c, missing, denied).None? <==> Rank(members[FindMember(members, ws, user).value].role) >= 1)
  {
  }

  /** Under the unique constraint, looking a membership's own pair up finds that membership. */
  lemma FindsItsOwnPair(members: map<MemberId, WorkspaceMember>, k: MemberId)
    requires UniquePairs(members) && k in members
    ensures FindMember(members, members[k].workspace, members[k].user) == Some(k)
  {
    var j := FindMember(members, members[k].workspace, members[k].user).value;
    assert IsMembership(members[j], members[k].workspace, members[k].user);
  }
}
