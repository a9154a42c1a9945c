/** The audit-trail entry and the activity types it is tagged with. */
module Activities {
  import opened Common

  datatype ActivityType =
    | WorkspaceCreated | WorkspaceUpdated | WorkspaceDeleted | MemberInvited | MemberRemoved
    | ProjectCreated | ProjectUpdated | ProjectDeleted
    | TaskCreated | TaskUpdated | TaskDeleted | TaskStatusChanged | TaskAssigned
    | CommentAdded | CommentUpdated | CommentDeleted

  /** Enum.name() of each constant. */
  function Name(t: ActivityType): string
  {
    match t
      case WorkspaceCreated => "WORKSPACE_CREATED"
      case WorkspaceUpdated => "WORKSPACE_UPDATED"
      case WorkspaceDeleted => "WORKSPACE_DELETED"
      case MemberInvited => "MEMBER_INVITED"
      case MemberRemoved => "MEMBER_REMOVED"
      case ProjectCreated => "PROJECT_CREATED"
      case ProjectUpdated => "PROJECT_UPDATED"
      case ProjectDeleted => "PROJECT_DELETED"
      case TaskCreated => "TASK_CREATED"
      case TaskUpdated => "TASK_UPDATED"
      case TaskDeleted => "TASK_DELETED"
      case TaskStatusChanged => "TASK_STATUS_CHANGED"
      case TaskAssigned => "TASK_ASSIGNED"
      case CommentAdded => "COMMENT_ADDED"
      case CommentUpdated => "COMMENT_UPDATED"
      case CommentDeleted => "COMMENT_DELETED"
  }

  /** The constants in declaration order, as Enum.values() lists them. */
  const Values: seq<ActivityType> := [
    WorkspaceCreated, WorkspaceUpdated, WorkspaceDeleted, MemberInvited, MemberRemoved,
    ProjectCreated, ProjectUpdated, ProjectDeleted,
    TaskCreated, TaskUpdated, TaskDeleted, TaskStatusChanged, TaskAssigned,
    CommentAdded, CommentUpdated, CommentDeleted]

  function FindByName(ts: seq<ActivityType>, name: string): (r: Option<ActivityType>)
    ensures r.Some? ==> r.value in ts && Name(r.value) == name
    ensures r.None? ==> forall t :: t in ts ==> Name(t) != name
  {
    if ts == [] then None
    else if Name(ts[0]) == name then Some(ts[0])
    else FindByName(ts[1..], name)
  }

  /** ActivityType.valueOf: the constant with that name, or nothing (an IllegalArgumentException). */
  function ValueOf(name: string): (r: Option<ActivityType>)
    ensures r.Some? ==> Name(r.value) == name
    ensures r.None? ==> forall t: ActivityType :: Name(t) != name
  {
    assert forall t: ActivityType :: t in Values by {
      forall t: ActivityType ensures t in Values { Listed(t); }
    }
    FindByName(Values, name)
  }

  lemma Listed(t: ActivityType)
    ensures t in Values
  {
    match t
      case WorkspaceCreated => assert Values[0] == t;
      case WorkspaceUpdated => assert Values[1] == t;
      case WorkspaceDeleted => assert Values[2] == t;
      case MemberInvited => assert Values[3] == t;
      case MemberRemoved => assert Values[4] == t;
      case ProjectCreated => assert Values[5] == t;
      case ProjectUpdated => assert Values[6] == t;
      case ProjectDeleted => assert Values[7] == t;
      case TaskCreated => assert Values[8] == t;
      case TaskUpdated => assert Values[9] == t;
      case TaskDeleted => assert Values[10] == t;
      case TaskStatusChanged => assert Values[11] == t;
      case TaskAssigned => assert Values[12] == t;
      case CommentAdded => assert Values[13] == t;
      case CommentUpdated => assert Values[14] == t;
      case CommentDeleted => assert Values[15] == t;
  }

  /** Distinct constants have distinct names. */
  lemma NamesInjective(a: ActivityType, b: ActivityType)
    ensures Name(a) == Name(b) ==> a == b
  {
  }

  /** valueOf inverts name(): every constant's name parses back to that constant. */
  lemma ValueOfName(t: ActivityType)
    ensures ValueOf(Name(t)) == Some(t)
  {
    var r := ValueOf(Name(t));
    NamesInjective(r.value, t);
  }

  /** A row of the activity log; its position in the table stands for its creation order. */
  datatype ActivityLog = ActivityLog(
    kind: ActivityType,
    workspace: WorkspaceId,
    actor: UserId,
    targetType: string,
    targetId: nat,
    targetName: string,
    details: Option<string>)
}
