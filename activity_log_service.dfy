/**
 * The audit trail: appending an entry under an activity-type name, and reading
 * a workspace's latest entries.
 */
module ActivityLogService {
  import opened Common
  import opened Members
  import opened Activities
  import opened StoreState

  /**
   * log: the type name is parsed with valueOf; an unknown name throws
   * IllegalArgumentException and nothing is appended.
   */
  method Log(db: Store, ws: WorkspaceId, actor: UserId, activityType: string,
             targetType: string, targetId: nat, targetName: string, details: Option<string>)
    returns (r: Result<()>)
    requires db.Valid()
    modifies db`activities
    ensures db.Valid()
    ensures r.Ok? <==> ValueOf(activityType).Some?
    ensures r.Err? ==> r.error == IllegalArgument && db.activities == old(db.activities)
    ensures r.Ok? ==>
      db.activities == old(db.activities) + [ActivityLog(ValueOf(activityType).value, ws, actor, targetType, targetId, targetName, details)]
  {
    match ValueOf(activityType)
      case None =>
        r := Err(IllegalArgument);
      case Some(kind) =>
        db.activities := db.activities + [ActivityLog(kind, ws, actor, targetType, targetId, targetName, details)];
        r := Ok(());
  }

  /** A service logging a constant of the enum always succeeds. */
  method LogType(db: Store, ws: WorkspaceId, actor: UserId, kind: ActivityType,
                 targetType: string, targetId: nat, targetName: string, details: Option<string>)
    requires db.Valid()
    modifies db`activities
    ensures db.Valid()
    ensures db.activities == old(db.activities) + [ActivityLog(kind, ws, actor, targetType, targetId, targetName, details)]
  {
    ValueOfName(kind);
    var r := Log(db, ws, actor, Name(kind), targetType, targetId, targetName, details);
  }

  /**
   * getActivities: only a member may read (otherwise a FORBIDDEN exception);
   * a page size below 1 is rejected by PageRequest; otherwise the workspace's
   * newest entries, at most limit of them, newest first.
   */
  function GetActivities(members: map<MemberId, WorkspaceMember>, activities: seq<ActivityLog>,
                         user: UserId, ws: WorkspaceId, limit: int): (r: Result<seq<ActivityLog>>)
    requires UniquePairs(members)
    ensures FindMember(members, ws, user).None? ==> r == Err(Forbidden)
    ensures FindMember(members, ws, user).Some? && limit < 1 ==> r == Err(IllegalArgument)
    ensures r.Ok? ==> FindMember(members, ws, user).Some? && limit >= 1
    ensures r.Ok? ==>
      var newest := NewestFirst(activities, (a: ActivityLog) => a.workspace == ws, |activities|);
      |r.value| == Min(limit, |newest|)
      && forall i :: 0 <= i < |r.value| ==> r.value[i] == activities[newest[i]] && r.value[i].workspace == ws
  {
    if FindMember(members, ws, user).None? then Err(Forbidden)
    else if limit < 1 then Err(IllegalArgument)
    else
      var newest := NewestFirst(activities, (a: ActivityLog) => a.workspace == ws, |activities|);
      var page := newest[..Min(limit, |newest|)];
      Ok(seq(|page|, i requires 0 <= i < |page| => activities[page[i]]))
  }
}
