/**
 * Task use cases: create, update, change status, soft delete, and the read of a
 * single task. Each checks, in order, that the task or project exists, that the
 * caller is a member of its workspace, that the member may edit tasks and that
 * the acting user exists; only then does it write. A @Transactional method
 * that throws rolls its writes back, but a WebSocket push that already left
 * stays sent.
 */
module TaskService {
  import opened Common
  import opened BaseEntity
  import opened Members
  import opened Tasks
  import opened Entities
  import Notifications
  import opened Activities
  import opened StoreState
  import NotificationService
  import ActivityLogService

  /** The request body shared by create and update; the title is validated as not blank. */
  datatype TaskRequest = TaskRequest(
    title: string,
    description: Option<string>,
    status: Option<Status>,
    priority: Option<Priority>,
    assigneeId: Option<UserId>,
    dueDate: Option<Day>)

  /** The workspace of a project, as task.getProject().getWorkspace().getId() reads it. */
  function WorkspaceOf(projects: map<ProjectId, Project>, p: ProjectId): WorkspaceId
  {
    if p in projects then projects[p].workspace else 0
  }

  /**
   * The checks every write to an existing task starts with, in source order:
   * the task exists (TASK_NOT_FOUND), the caller is a member of its workspace
   * (WORKSPACE_ACCESS_DENIED), the membership may edit tasks (the operation's
   * own code) and the caller's user row exists (USER_NOT_FOUND). It yields the
   * task as found.
   */
  function TaskAccess(tasks: map<TaskId, Task>, projects: map<ProjectId, Project>,
                      members: map<MemberId, WorkspaceMember>, users: map<UserId, User>,
                      userId: UserId, taskId: TaskId, denied: ErrorCode): (r: Result<Task>)
    requires UniquePairs(members)
    ensures taskId !in tasks ==> r == Err(TaskNotFound)
    ensures taskId in tasks ==>
      var m := FindMember(members, WorkspaceOf(projects, tasks[taskId].project), userId);
      (m.None? ==> r == Err(WorkspaceAccessDenied))
      && (m.Some? && !members[m.value].CanEditTasks() ==> r == Err(denied))
      && (m.Some? && members[m.value].CanEditTasks() && userId !in users ==> r == Err(UserNotFound))
    ensures r.Ok? ==> (
      taskId in tasks && r.value == tasks[taskId] && userId in users
      && exists k :: k in members && IsMembership(members[k], WorkspaceOf(projects, r.value.project), userId)
                     && members[k].CanEditTasks())
  {
    if taskId !in tasks then Err(TaskNotFound)
    else
      match MemberOrThrow(members, WorkspaceOf(projects, tasks[taskId].project), userId, WorkspaceAccessDenied)
        case Err(e) => Err(e)
        case Ok(m) =>
          if !m.CanEditTasks() then Err(denied)
          else if userId !in users then Err(UserNotFound)
          else Ok(tasks[taskId])
  }

  /**
   * The builder call as written: an absent status falls back to TODO, but the
   * request's priority is set even when it is absent, which overrides the
   * builder default MEDIUM with null.
   */
  function BuildTask(id: TaskId, req: TaskRequest, project: ProjectId, creator: UserId, now: Time): (t: Task)
    ensures t.id == id && t.title == req.title && t.description == req.description && t.dueDate == req.dueDate
    ensures t.status == (if req.status.Some? then req.status.value else Todo)
    ensures t.priority == req.priority && (t.NotNullColumnsSet() <==> req.priority.Some?)
    ensures t.assignee == req.assigneeId && t.createdBy == creator && t.project == project
    ensures t.displayOrder == 0 && t.labels == {} && t.life == Created(now)
  {
    Task(id, req.title, req.description, if req.status.Some? then req.status.value else Todo,
         req.priority, project, req.assigneeId, creator, req.dueDate, 0, {}, Created(now))
  }

  /** The assignment notification is due when an assignee is set who is not the creator. */
  predicate NotifyOnCreate(req: TaskRequest, userId: UserId)
  {
    req.assigneeId.Some? && req.assigneeId.value != userId
  }

  /**
   * The checks createTask makes before it writes, in source order: the project
   * (PROJECT_NOT_FOUND), the caller's membership of its workspace
   * (WORKSPACE_ACCESS_DENIED), the right to edit tasks (TASK_CREATE_DENIED), the
   * creator's user row (USER_NOT_FOUND), and for a given assignee their user row
   * (USER_NOT_FOUND) and membership (WORKSPACE_ACCESS_DENIED).
   */
  function CreateCheck(projects: map<ProjectId, Project>, members: map<MemberId, WorkspaceMember>,
                       users: map<UserId, User>, userId: UserId, projectId: ProjectId, req: TaskRequest): (r: Option<ErrorCode>)
    requires UniquePairs(members)
    ensures projectId !in projects ==> r == Some(ProjectNotFound)
    ensures projectId in projects ==>
      var ws := WorkspaceOf(projects, projectId);
      var m := FindMember(members, ws, userId);
      var a := req.assigneeId;
      (m.None? ==> r == Some(WorkspaceAccessDenied))
      && (m.Some? && !members[m.value].CanEditTasks() ==> r == Some(TaskCreateDenied))
      && (m.Some? && members[m.value].CanEditTasks() && userId !in users ==> r == Some(UserNotFound))
      && (m.Some? && members[m.value].CanEditTasks() && userId in users ==> (
            (a.Some? && a.value !in users ==> r == Some(UserNotFound))
            && (a.Some? && a.value in users && FindMember(members, ws, a.value).None? ==> r == Some(WorkspaceAccessDenied))
            && (a.Some? ==> a.value in users && FindMember(members, ws, a.value).Some? ==> r.None?)
            && (a.None? ==> r.None?)))
  {
    if projectId !in projects then Some(ProjectNotFound)
    else
      var ws := projects[projectId].workspace;
      match MemberOrThrow(members, ws, userId, WorkspaceAccessDenied)
        case Err(e) => Some(e)
        case Ok(m) =>
          if !m.CanEditTasks() then Some(TaskCreateDenied)
          else if userId !in users then Some(UserNotFound)
          else if req.assigneeId.None? then None
          else if req.assigneeId.value !in users then Some(UserNotFound)
          else if FindMember(members, ws, req.assigneeId.value).None? then Some(WorkspaceAccessDenied)
          else None
  }

  /**
   * createTask: after the checks, the task is saved, TASK_CREATED is logged,
   * and an assignee other than the creator is notified. The save inserts at
   * once, so a request without a priority fails there on the NOT NULL column
   * and the transaction rolls back. Nothing is written when anything fails.
   */
  method CreateTask(db: Store, userId: UserId, projectId: ProjectId, req: TaskRequest, now: Time) returns (r: Result<TaskId>)
    requires db.Valid()
    modifies db`tasks, db`nextId, db`activities, db`notifications, db`pushes
    ensures db.Valid()
    ensures CreateCheck(db.projects, db.members, db.users, userId, projectId, req).Some? ==>
      r == Err(CreateCheck(db.projects, db.members, db.users, userId, projectId, req).value)
    ensures CreateCheck(db.projects, db.members, db.users, userId, projectId, req).None? && req.priority.None? ==>
      r == Err(DataIntegrityViolation)
    ensures r.Err? ==>
      db.tasks == old(db.tasks) && db.nextId == old(db.nextId) && db.activities == old(db.activities)
      && db.notifications == old(db.notifications) && db.pushes == old(db.pushes)
    ensures CreateCheck(db.projects, db.members, db.users, userId, projectId, req).None? && req.priority.Some? ==> (
      r.Ok? && projectId in db.projects && userId in db.users
      && Saved(db, old(db.tasks), old(db.nextId), old(db.activities), old(db.notifications), old(db.pushes),
               WorkspaceOf(db.projects, projectId), userId, projectId, req, now, r.value))
  {
    var err := CreateCheck(db.projects, db.members, db.users, userId, projectId, req);
    if err.Some? { return Err(err.value); }
    if req.priority.None? { return Err(DataIntegrityViolation); }
    var id := SaveNewTask(db, userId, projectId, req, now);
    r := Ok(id);
  }

  /**
   * The state after createTask saved task id: a fresh key, the built row, the
   * TASK_CREATED entry, and the assignment notification with its push when due.
   */
  ghost predicate Saved(db: Store, tasks0: map<TaskId, Task>, next0: nat, activities0: seq<ActivityLog>,
                        notifications0: seq<Notifications.Notification>, pushes0: seq<Notifications.Notification>,
                        ws: WorkspaceId, userId: UserId, projectId: ProjectId, req: TaskRequest, now: Time, id: TaskId)
    requires userId in db.users
    reads db`tasks, db`nextId, db`activities, db`notifications, db`pushes, db`users
  {
    var t := BuildTask(id, req, projectId, userId, now);
    id == next0 && id !in tasks0 && db.nextId == next0 + 1
    && db.tasks == tasks0[id := t]
    && db.activities == activities0 + [ActivityLog(TaskCreated, ws, userId, "TASK", id, req.title, None)]
    && (NotifyOnCreate(req, userId) ==> (
          db.notifications == notifications0 + [NotificationService.AssignedNotification(t, db.users[userId])]
          && db.pushes == pushes0 + [NotificationService.AssignedNotification(t, db.users[userId])]))
    && (!NotifyOnCreate(req, userId) ==> db.notifications == notifications0 && db.pushes == pushes0)
  }

  /** The writes of createTask once its checks have passed. */
  method SaveNewTask(db: Store, userId: UserId, projectId: ProjectId, req: TaskRequest, now: Time) returns (id: TaskId)
    requires db.Valid() && projectId in db.projects && userId in db.users && req.priority.Some?
    modifies db`tasks, db`nextId, db`activities, db`notifications, db`pushes
    ensures db.Valid()
    ensures Saved(db, old(db.tasks), old(db.nextId), old(db.activities), old(db.notifications), old(db.pushes),
                  WorkspaceOf(db.projects, projectId), userId, projectId, req, now, id)
  {
    id := db.NewId();
    var t := BuildTask(id, req, projectId, userId, now);
    db.PutTask(t);
    ActivityLogService.LogType(db, WorkspaceOf(db.projects, projectId), userId, TaskCreated, "TASK", id, t.title, None);
    if NotifyOnCreate(req, userId) {
      NotificationService.SendTaskAssignedNotification(db, t, db.users[userId]);
    }
  }

  /** The task after updateInfo and, when a status is given, changeStatus. */
  function Edited(t: Task, req: TaskRequest): (e: Task)
    ensures e.title == req.title && e.description == req.description && e.priority == req.priority && e.dueDate == req.dueDate
    ensures e.status == (if req.status.Some? then req.status.value else t.status)
    ensures e.id == t.id && e.assignee == t.assignee && e.project == t.project && e.createdBy == t.createdBy && e.life == t.life
  {
    var u := t.UpdateInfo(req.title, req.description, req.priority, req.dueDate);
    if req.status.Some? then u.ChangeStatus(req.status.value) else u
  }

  /**
   * The status step of updateTask passes when the request gives no status or
   * the updater created the task; otherwise the status-changed notification's
   * save is refused.
   */
  predicate StatusStepPasses(t0: Task, req: TaskRequest, userId: UserId)
  {
    req.status.None? || t0.createdBy == userId
  }

  /** The task after the assignee step of updateTask: the given assignee, or the old one. */
  function Reassigned(e: Task, req: TaskRequest): (t: Task)
    ensures t.assignee == (if req.assigneeId.Some? then req.assigneeId else e.assignee)
    ensures t.(assignee := e.assignee) == e
    ensures t.id == e.id && t.project == e.project && t.life == e.life && t.priority == e.priority && t.title == e.title
  {
    if req.assigneeId.Some? then e.AssignTo(req.assigneeId) else e
  }

  /**
   * What the assignee step of updateTask sends: one notification for a given
   * assignee who is new (the previous one was someone else or nobody) and not
   * the updater, and nothing otherwise.
   */
  function AssignSent(t0: Task, req: TaskRequest, updater: User): (sent: seq<Notifications.Notification>)
    ensures |sent| <= 1
    ensures |sent| == 1 <==> req.assigneeId.Some? && t0.assignee != req.assigneeId && req.assigneeId.value != updater.id
    ensures |sent| == 1 ==> sent[0].recipient == req.assigneeId.value && sent[0].kind.TaskAssigned?
  {
    if req.assigneeId.Some? && t0.assignee != req.assigneeId && req.assigneeId.value != updater.id
    then [NotificationService.AssignedNotification(Reassigned(Edited(t0, req), req), updater)]
    else []
  }

  /**
   * The assignee checks of updateTask: a given assignee must have a user row
   * (USER_NOT_FOUND) and belong to the task's workspace (WORKSPACE_ACCESS_DENIED).
   */
  function AssigneeCheck(users: map<UserId, User>, members: map<MemberId, WorkspaceMember>,
                         ws: WorkspaceId, req: TaskRequest): (r: Option<ErrorCode>)
    requires UniquePairs(members)
    ensures r.None? <==> req.assigneeId.None? || (req.assigneeId.value in users && FindMember(members, ws, req.assigneeId.value).Some?)
    ensures r.Some? ==> r.value == (if req.assigneeId.value !in users then UserNotFound else WorkspaceAccessDenied)
  {
    if req.assigneeId.None? then None
    else if req.assigneeId.value !in users then Some(UserNotFound)
    else if FindMember(members, ws, req.assigneeId.value).None? then Some(WorkspaceAccessDenied)
    else None
  }

  /**
   * What updateTask ends in: the error it throws, or the task as committed.
   * After the access checks comes the status step, whose notification the
   * NOT NULL message column refuses when someone other than the creator
   * changes the status; then the assignee checks; then the commit, which the
   * NOT NULL priority column refuses when the request left the priority out.
   */
  function UpdateOutcome(tasks: map<TaskId, Task>, projects: map<ProjectId, Project>,
                         members: map<MemberId, WorkspaceMember>, users: map<UserId, User>,
                         userId: UserId, taskId: TaskId, req: TaskRequest): (r: Result<Task>)
    requires UniquePairs(members)
    ensures TaskAccess(tasks, projects, members, users, userId, taskId, TaskUpdateDenied).Err? ==>
      r == Err(TaskAccess(tasks, projects, members, users, userId, taskId, TaskUpdateDenied).error)
    ensures TaskAccess(tasks, projects, members, users, userId, taskId, TaskUpdateDenied).Ok? ==>
      var check := AssigneeCheck(users, members, WorkspaceOf(projects, tasks[taskId].project), req);
      (!StatusStepPasses(tasks[taskId], req, userId) ==> r == Err(DataIntegrityViolation))
      && (StatusStepPasses(tasks[taskId], req, userId) && check.Some? ==> r == Err(check.value))
      && (StatusStepPasses(tasks[taskId], req, userId) && check.None? ==>
            (r.Ok? <==> req.priority.Some?) && (r.Err? ==> r.error == DataIntegrityViolation))
    ensures r.Ok? ==> taskId in tasks && r.value == Reassigned(Edited(tasks[taskId], req), req) && r.value.NotNullColumnsSet()
    ensures r.Ok? && req.status.Some? ==> r.value.createdBy == userId
  {
    match TaskAccess(tasks, projects, members, users, userId, taskId, TaskUpdateDenied)
      case Err(e) => Err(e)
      case Ok(t0) =>
        var check := AssigneeCheck(users, members, WorkspaceOf(projects, t0.project), req);
        if !StatusStepPasses(t0, req, userId) then Err(DataIntegrityViolation)
        else if check.Some? then Err(check.value)
        else if req.priority.None? then Err(DataIntegrityViolation)
        else Ok(Reassigned(Edited(t0, req), req))
  }

  /** updateTask gets as far as the assignee step: the access checks, the status step and the assignee checks pass. */
  predicate ReachesAssignStep(tasks: map<TaskId, Task>, projects: map<ProjectId, Project>,
                              members: map<MemberId, WorkspaceMember>, users: map<UserId, User>,
                              userId: UserId, taskId: TaskId, req: TaskRequest)
    requires UniquePairs(members)
  {
    var g := TaskAccess(tasks, projects, members, users, userId, taskId, TaskUpdateDenied);
    g.Ok? && StatusStepPasses(g.value, req, userId)
    && AssigneeCheck(users, members, WorkspaceOf(projects, g.value.project), req).None?
  }

  /**
   * updateTask: after the access checks (TASK_UPDATE_DENIED for a viewer), title,
   * description, priority and due date are overwritten, absent values included;
   * a given status is set, and when the creator is someone else the
   * notification's save fails; a given assignee is checked and, if new and
   * someone else, notified with a push; TASK_CREATED is logged; and the commit
   * may still fail. Every failure rolls the tables back, but not a push
   * already sent.
   */
  method UpdateTask(db: Store, userId: UserId, taskId: TaskId, req: TaskRequest) returns (r: Result<Task>)
    requires db.Valid()
    modifies db`tasks, db`activities, db`notifications, db`pushes
    ensures db.Valid()
    ensures r == UpdateOutcome(old(db.tasks), old(db.projects), old(db.members), old(db.users), userId, taskId, req)
    ensures db.pushes == old(db.pushes)
      + if ReachesAssignStep(old(db.tasks), old(db.projects), old(db.members), old(db.users), userId, taskId, req)
        then AssignSent(old(db.tasks)[taskId], req, old(db.users)[userId]) else []
    ensures r.Err? ==> db.tasks == old(db.tasks) && db.activities == old(db.activities) && db.notifications == old(db.notifications)
    ensures r.Ok? ==> (
      var t0 := old(db.tasks)[taskId];
      taskId in old(db.tasks) && userId in old(db.users)
      && db.tasks == old(db.tasks)[taskId := r.value]
      && db.activities == old(db.activities)
         + [ActivityLog(TaskCreated, WorkspaceOf(old(db.projects), t0.project), userId, "TASK", taskId, req.title, None)]
      && db.notifications == old(db.notifications) + AssignSent(t0, req, old(db.users)[userId]))
  {
    var g := TaskAccess(db.tasks, db.projects, db.members, db.users, userId, taskId, TaskUpdateDenied);
    if g.Err? { return Err(g.error); }
    var t0, updater := g.value, db.users[userId];
    var ws := WorkspaceOf(db.projects, t0.project);
    var status := StatusStep(db, Edited(t0, req), t0.status, req, updater);
    if status.Err? {
      return Err(status.error);
    }
    var check := AssigneeCheck(db.users, db.members, ws, req);
    if check.Some? {
      return Err(check.value);
    }
    r := AssignAndCommit(db, t0, ws, userId, updater, req);
  }

  /** The end of updateTask once every check has passed: the assignee step and the commit. */
  method AssignAndCommit(db: Store, t0: Task, ws: WorkspaceId, userId: UserId, updater: User, req: TaskRequest)
    returns (r: Result<Task>)
    requires db.Valid() && t0.id in db.tasks && db.tasks[t0.id] == t0
    modifies db`tasks, db`activities, db`notifications, db`pushes
    ensures db.Valid()
    ensures r.Ok? <==> req.priority.Some?
    ensures db.pushes == old(db.pushes) + AssignSent(t0, req, updater)
    ensures r.Err? ==> r.error == DataIntegrityViolation && db.tasks == old(db.tasks) && db.activities == old(db.activities) && db.notifications == old(db.notifications)
    ensures r.Ok? ==>
      r.value == Reassigned(Edited(t0, req), req)
      && db.tasks == old(db.tasks)[t0.id := r.value]
      && db.activities == old(db.activities) + [ActivityLog(TaskCreated, ws, userId, "TASK", t0.id, req.title, None)]
      && db.notifications == old(db.notifications) + AssignSent(t0, req, updater)
  {
    if req.priority.None? {
      AssignAndRefuse(db, t0, req, updater);
      return Err(DataIntegrityViolation);
    }
    var t := AssignStep(db, t0, req, updater);
    ActivityLogService.LogType(db, ws, userId, TaskCreated, "TASK", t.id, t.title, None);
    // The changed entity is flushed at the commit.
    db.PutTask(t);
    r := Ok(t);
  }

  /**
   * The assignee step when the request left the priority out: the flush at the
   * commit refuses the row (NOT NULL priority), and the rollback takes the
   * notification row and the TASK_CREATED entry back; the push has already left.
   */
  method AssignAndRefuse(db: Store, t0: Task, req: TaskRequest, updater: User)
    requires db.Valid()
    modifies db`notifications, db`pushes
    ensures db.notifications == old(db.notifications)
    ensures db.pushes == old(db.pushes) + AssignSent(t0, req, updater)
  {
    var notifications0 := db.notifications;
    var t := AssignStep(db, t0, req, updater);
    db.RollBackNotifications(notifications0);
  }

  /** The status step of updateTask: the creator, if someone else, is to be told of a given status. */
  method StatusStep(db: Store, t: Task, oldStatus: Status, req: TaskRequest, updater: User) returns (r: Result<()>)
    requires db.Valid()
    modifies db`notifications, db`pushes
    ensures db.Valid()
    ensures r.Ok? <==> StatusStepPasses(t, req, updater.id)
    ensures r.Err? ==> r.error == DataIntegrityViolation
    ensures db.notifications == old(db.notifications) && db.pushes == old(db.pushes)
  {
    r := Ok(());
    if req.status.Some? {
      r := NotificationService.SendTaskStatusChangedNotification(db, t, updater, StatusName(oldStatus), StatusName(req.status.value));
    }
  }

  /** The assignee step of updateTask, once the assignee checks have passed. */
  method AssignStep(db: Store, t0: Task, req: TaskRequest, updater: User) returns (t: Task)
    requires db.Valid()
    modifies db`notifications, db`pushes
    ensures t == Reassigned(Edited(t0, req), req)
    ensures t.id == t0.id && t.project == t0.project && t.life == t0.life && t.title == req.title
    ensures t.NotNullColumnsSet() <==> req.priority.Some?
    ensures db.notifications == old(db.notifications) + AssignSent(t0, req, updater)
    ensures db.pushes == old(db.pushes) + AssignSent(t0, req, updater)
  {
    t := Edited(t0, req);
    if req.assigneeId.Some? {
      var a := req.assigneeId.value;
      t := t.AssignTo(Some(a));
      if t0.assignee != Some(a) && a != updater.id {
        NotificationService.SendTaskAssignedNotification(db, t, updater);
      }
    }
  }

  /** The activity details of a status change: the old and the new status name around an arrow. */
  function StatusChangeDetails(from: Status, to: Status): (r: string)
    ensures |r| == |StatusName(from)| + 3 + |StatusName(to)|
    ensures r[..|StatusName(from)|] == StatusName(from) && r[|r| - |StatusName(to)|..] == StatusName(to)
  {
    StatusName(from) + " → " + StatusName(to)
  }

  /**
   * What changeTaskStatus ends in: the access checks (TASK_STATUS_CHANGE_DENIED
   * for a viewer), then the status-changed notification, whose save the NOT
   * NULL message column refuses unless the changer created the task.
   */
  function StatusChangeOutcome(tasks: map<TaskId, Task>, projects: map<ProjectId, Project>,
                               members: map<MemberId, WorkspaceMember>, users: map<UserId, User>,
                               userId: UserId, taskId: TaskId, status: Status): (r: Result<Task>)
    requires UniquePairs(members)
    ensures var g := TaskAccess(tasks, projects, members, users, userId, taskId, TaskStatusChangeDenied);
      (g.Err? ==> r == Err(g.error))
      && (g.Ok? ==> (r.Ok? <==> tasks[taskId].createdBy == userId) && (r.Err? ==> r.error == DataIntegrityViolation))
    ensures r.Ok? ==> taskId in tasks && r.value == tasks[taskId].(status := status) && r.value.createdBy == userId
  {
    match TaskAccess(tasks, projects, members, users, userId, taskId, TaskStatusChangeDenied)
      case Err(e) => Err(e)
      case Ok(t0) => if t0.createdBy != userId then Err(DataIntegrityViolation) else Ok(t0.ChangeStatus(status))
  }

  /**
   * changeTaskStatus: the access checks; then the status is set,
   * TASK_STATUS_CHANGED is logged with "old → new", and the creator, if
   * someone else, is to be told, even when the status did not change. That
   * notification's save is refused, so the change and the entry are rolled
   * back; only a change by the creator is kept, and it sends nothing.
   */
  method ChangeTaskStatus(db: Store, userId: UserId, taskId: TaskId, status: Status) returns (r: Result<Task>)
    requires db.Valid()
    modifies db`tasks, db`activities, db`notifications, db`pushes
    ensures db.Valid()
    ensures r == StatusChangeOutcome(old(db.tasks), db.projects, db.members, db.users, userId, taskId, status)
    ensures db.notifications == old(db.notifications) && db.pushes == old(db.pushes)
    ensures r.Err? ==> db.tasks == old(db.tasks) && db.activities == old(db.activities)
    ensures r.Ok? ==> (
      var t0 := old(db.tasks)[taskId];
      taskId in old(db.tasks) && userId in db.users
      && db.tasks == old(db.tasks)[taskId := r.value]
      && db.activities == old(db.activities)
         + [ActivityLog(TaskStatusChanged, WorkspaceOf(db.projects, t0.project), userId, "TASK", taskId, t0.title,
                        Some(StatusChangeDetails(t0.status, status)))])
  {
    var g := TaskAccess(db.tasks, db.projects, db.members, db.users, userId, taskId, TaskStatusChangeDenied);
    if g.Err? { return Err(g.error); }
    r := StatusChangeSteps(db, g.value, WorkspaceOf(db.projects, g.value.project), userId, db.users[userId], status);
  }

  /**
   * The writes of changeTaskStatus after the access checks: the log entry,
   * the notification, whose refusal rolls the entry back, and the changed
   * status, which reaches the table when the transaction commits.
   */
  method StatusChangeSteps(db: Store, t0: Task, ws: WorkspaceId, userId: UserId, changer: User, status: Status)
    returns (r: Result<Task>)
    requires db.Valid() && t0.id in db.tasks && db.tasks[t0.id] == t0 && changer.id == userId
    modifies db`tasks, db`activities, db`notifications, db`pushes
    ensures db.Valid()
    ensures r.Ok? <==> t0.createdBy == userId
    ensures r.Ok? ==> r.value == t0.ChangeStatus(status)
    ensures r.Err? ==> r.error == DataIntegrityViolation
    ensures db.notifications == old(db.notifications) && db.pushes == old(db.pushes)
    ensures r.Err? ==> db.tasks == old(db.tasks) && db.activities == old(db.activities)
    ensures r.Ok? ==>
      db.tasks == old(db.tasks)[t0.id := r.value]
      && db.activities == old(db.activities)
         + [ActivityLog(TaskStatusChanged, ws, userId, "TASK", t0.id, t0.title, Some(StatusChangeDetails(t0.status, status)))]
  {
    var t := t0.ChangeStatus(status);
    assert t.createdBy == t0.createdBy;
    var noted := NoteStatusChange(db, t, ws, userId, changer, StatusChangeDetails(t0.status, status), StatusName(t0.status));
    if noted.Err? {
      return Err(noted.error);
    }
    // The changed entity is flushed at the commit.
    db.PutTask(t);
    r := Ok(t);
  }

  /**
   * The log entry and the notification of changeTaskStatus; a refused
   * notification rolls the entry back.
   */
  method NoteStatusChange(db: Store, t: Task, ws: WorkspaceId, userId: UserId, changer: User, details: string, oldName: string)
    returns (r: Result<()>)
    requires db.Valid()
    modifies db`activities, db`notifications, db`pushes
    ensures db.Valid()
    ensures r.Ok? <==> t.createdBy == changer.id
    ensures r.Err? ==> r.error == DataIntegrityViolation && db.activities == old(db.activities)
    ensures r.Ok? ==> db.activities == old(db.activities) + [ActivityLog(TaskStatusChanged, ws, userId, "TASK", t.id, t.title, Some(details))]
    ensures db.notifications == old(db.notifications) && db.pushes == old(db.pushes)
  {
    // The entry is logged before the notification; as the rollback of a
    // refused notification takes the entry back, logging it only after a
    // notification that went through leaves the same state.
    r := NotificationService.SendTaskStatusChangedNotification(db, t, changer, oldName, StatusName(t.status));
    if r.Ok? {
      ActivityLogService.LogType(db, ws, userId, TaskStatusChanged, "TASK", t.id, t.title, Some(details));
    }
  }

  /**
   * deleteTask: the access checks (TASK_DELETE_DENIED for a viewer); then
   * TASK_DELETED is logged and the task soft-deleted. A task already in the
   * trash is found too, and deleting it again moves its deletion time.
   */
  method DeleteTask(db: Store, userId: UserId, taskId: TaskId, now: Time) returns (r: Result<()>)
    requires db.Valid()
    modifies db`tasks, db`activities
    ensures db.Valid()
    ensures var g := TaskAccess(old(db.tasks), db.projects, db.members, db.users, userId, taskId, TaskDeleteDenied);
      (g.Err? ==> r == Err(g.error)) && (g.Ok? ==> r.Ok?)
    ensures r.Err? ==> db.tasks == old(db.tasks) && db.activities == old(db.activities)
    ensures r.Ok? ==> (
      var t0 := old(db.tasks)[taskId];
      taskId in old(db.tasks)
      && db.tasks == old(db.tasks)[taskId := t0.(life := t0.life.Delete(now))]
      && db.activities == old(db.activities)
         + [ActivityLog(TaskDeleted, WorkspaceOf(db.projects, t0.project), userId, "TASK", taskId, t0.title, None)])
  {
    var g := TaskAccess(db.tasks, db.projects, db.members, db.users, userId, taskId, TaskDeleteDenied);
    if g.Err? { return Err(g.error); }
    var t0 := g.value;
    ActivityLogService.LogType(db, WorkspaceOf(db.projects, t0.project), userId, TaskDeleted, "TASK", taskId, t0.title, None);
    db.PutTask(t0.(life := t0.life.Delete(now)));
    r := Ok(());
  }

  /** getTask: the task, to members of its workspace only; deleted tasks are not filtered out. */
  function GetTask(db: map<TaskId, Task>, projects: map<ProjectId, Project>, members: map<MemberId, WorkspaceMember>,
                   userId: UserId, taskId: TaskId): (r: Result<Task>)
    requires UniquePairs(members)
    ensures taskId !in db ==> r == Err(TaskNotFound)
    ensures taskId in db ==>
      (r.Ok? <==> FindMember(members, WorkspaceOf(projects, db[taskId].project), userId).Some?)
      && (r.Ok? ==> r.value == db[taskId])
      && (r.Err? ==> r.error == WorkspaceAccessDenied)
  {
    if taskId !in db then Err(TaskNotFound)
    else match MemberOrThrow(members, WorkspaceOf(projects, db[taskId].project), userId, WorkspaceAccessDenied)
      case Err(e) => Err(e)
      case Ok(_) => Ok(db[taskId])
  }
}
