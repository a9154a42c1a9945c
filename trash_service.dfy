/**
 * The trash: listing the soft-deleted tasks and projects of a workspace,
 * restoring them, deleting them for good one at a time, and purging
 * everything deleted more than 30 days ago. Listing and restoring need a
 * membership that may manage projects; deleting for good needs the owner. A
 * caller without a membership gets WORKSPACE_ACCESS_DENIED, one without the
 * right role ACCESS_DENIED, and in both cases nothing changes.
 */
module TrashService {
  import opened Common
  import opened BaseEntity
  import opened Members
  import opened Tasks
  import opened Entities
  import opened StoreState
  import TaskRepository
  import ProjectRepository

  /** The workspace a task belongs to through its project. */
  function TaskWorkspace(db: map<ProjectId, Project>, t: Task): WorkspaceId
  {
    if t.project in db then db[t.project].workspace else 0
  }

  /**
   * getDeletedTasks: for a caller who may manage projects, exactly the
   * workspace's soft-deleted tasks, most recently deleted first.
   */
  method GetDeletedTasks(db: Store, userId: UserId, ws: WorkspaceId) returns (r: Result<seq<Task>>)
    requires db.Valid()
    ensures var g := Guard(db.members, ws, userId, ManageProjects, WorkspaceAccessDenied, AccessDenied);
      (g.Some? ==> r == Err(g.value)) && (g.None? ==> r.Ok?)
    ensures r.Ok? ==> TaskRepository.Sorted(TaskRepository.DeletedAtDesc, r.value)
    ensures r.Ok? ==> forall t :: t in r.value <==>
      t in db.tasks.Values && TaskRepository.InWorkspace(t, db.projects, ws) && t.life.isDeleted
    ensures r.Ok? ==> TaskRepository.DistinctIds(r.value)
  {
    var g := Guard(db.members, ws, userId, ManageProjects, WorkspaceAccessDenied, AccessDenied);
    if g.Some? { return Err(g.value); }
    var rows := db.TaskRows();
    assert forall t :: t in rows <==> t in db.tasks.Values by {
      forall t | t in db.tasks.Values ensures t in rows {
        var k :| k in db.tasks && db.tasks[k] == t;
        var i :| 0 <= i < |rows| && rows[i].id == k;
      }
    }
    var found := TaskRepository.FindDeletedByWorkspaceId(rows, db.projects, ws);
    TaskRepository.DistinctIdsInSub(rows, found);
    r := Ok(found);
  }

  /**
   * getDeletedProjects: for a caller who may manage projects, exactly the
   * workspace's soft-deleted projects, most recently deleted first.
   */
  method GetDeletedProjects(db: Store, userId: UserId, ws: WorkspaceId) returns (r: Result<seq<Project>>)
    requires db.Valid()
    ensures var g := Guard(db.members, ws, userId, ManageProjects, WorkspaceAccessDenied, AccessDenied);
      (g.Some? ==> r == Err(g.value)) && (g.None? ==> r.Ok?)
    ensures r.Ok? ==> ProjectRepository.Sorted(ProjectRepository.DeletedAtDesc, r.value)
    ensures r.Ok? ==> forall p :: p in r.value <==> p in db.projects.Values && p.workspace == ws && p.life.isDeleted
    ensures r.Ok? ==> ProjectRepository.DistinctIds(r.value)
  {
    var g := Guard(db.members, ws, userId, ManageProjects, WorkspaceAccessDenied, AccessDenied);
    if g.Some? { return Err(g.value); }
    var rows := db.ProjectRows();
    assert forall p :: p in rows <==> p in db.projects.Values by {
      forall p | p in db.projects.Values ensures p in rows {
        var k :| k in db.projects && db.projects[k] == p;
        var i :| 0 <= i < |rows| && rows[i].id == k;
      }
    }
    var found := ProjectRepository.FindDeletedByWorkspaceId(rows, ws);
    ProjectRepository.DistinctIdsInSub(rows, found);
    r := Ok(found);
  }

  /**
   * The checks restore and permanent delete make on a task, in source order:
   * the task exists, deleted or not (TASK_NOT_FOUND); the caller is a member of
   * its workspace (WORKSPACE_ACCESS_DENIED); the membership has the capability
   * (ACCESS_DENIED).
   */
  function TaskCheck(db: map<TaskId, Task>, projects: map<ProjectId, Project>, members: map<MemberId, WorkspaceMember>,
                     userId: UserId, taskId: TaskId, c: Capability): (r: Option<ErrorCode>)
    requires UniquePairs(members)
    ensures taskId !in db ==> r == Some(TaskNotFound)
    ensures taskId in db ==> r == Guard(members, TaskWorkspace(projects, db[taskId]), userId, c, WorkspaceAccessDenied, AccessDenied)
  {
    if taskId !in db then Some(TaskNotFound)
    else Guard(members, TaskWorkspace(projects, db[taskId]), userId, c, WorkspaceAccessDenied, AccessDenied)
  }

  /** The same checks on a project, with PROJECT_NOT_FOUND for a missing one. */
  function ProjectCheck(projects: map<ProjectId, Project>, members: map<MemberId, WorkspaceMember>,
                        userId: UserId, projectId: ProjectId, c: Capability): (r: Option<ErrorCode>)
    requires UniquePairs(members)
    ensures projectId !in projects ==> r == Some(ProjectNotFound)
    ensures projectId in projects ==> r == Guard(members, projects[projectId].workspace, userId, c, WorkspaceAccessDenied, AccessDenied)
  {
    if projectId !in projects then Some(ProjectNotFound)
    else Guard(members, projects[projectId].workspace, userId, c, WorkspaceAccessDenied, AccessDenied)
  }

  /**
   * restoreTask: the deletion flags of the task are cleared; a live task is
   * accepted too and stays live. Only that row changes.
   */
  method RestoreTask(db: Store, userId: UserId, taskId: TaskId) returns (r: Result<Task>)
    requires db.Valid()
    modifies db`tasks
    ensures db.Valid()
    ensures var c := TaskCheck(old(db.tasks), db.projects, db.members, userId, taskId, ManageProjects);
      (c.Some? ==> r == Err(c.value) && db.tasks == old(db.tasks))
      && (c.None? ==> taskId in old(db.tasks) && r.Ok? && r.value.id == taskId
                      && r.value == old(db.tasks)[taskId].(life := old(db.tasks)[taskId].life.Restore())
                      && !r.value.life.isDeleted && db.tasks == old(db.tasks)[taskId := r.value])
  {
    var c := TaskCheck(db.tasks, db.projects, db.members, userId, taskId, ManageProjects);
    if c.Some? { return Err(c.value); }
    var t := db.tasks[taskId];
    t := t.(life := t.life.Restore());
    db.PutTask(t);
    r := Ok(t);
  }

  /**
   * restoreProject: the deletion flags of the project are cleared; its tasks
   * keep their own flags.
   */
  method RestoreProject(db: Store, userId: UserId, projectId: ProjectId) returns (r: Result<Project>)
    requires db.Valid()
    modifies db`projects
    ensures db.Valid()
    ensures var c := ProjectCheck(old(db.projects), db.members, userId, projectId, ManageProjects);
      (c.Some? ==> r == Err(c.value) && db.projects == old(db.projects))
      && (c.None? ==> projectId in old(db.projects) && r.Ok?
                      && r.value == old(db.projects)[projectId].(life := old(db.projects)[projectId].life.Restore())
                      && !r.value.life.isDeleted && db.projects == old(db.projects)[projectId := r.value])
  {
    var c := ProjectCheck(db.projects, db.members, userId, projectId, ManageProjects);
    if c.Some? { return Err(c.value); }
    var p := db.projects[projectId];
    p := p.(life := p.life.Restore());
    db.projects := db.projects[projectId := p];
    r := Ok(p);
  }

  /**
   * permanentDeleteTask: only the owner; the row goes whether or not it was in
   * the trash, unless a comment, checklist item or attachment still references
   * it: then the foreign keys refuse the delete and nothing changes.
   */
  method PermanentDeleteTask(db: Store, userId: UserId, taskId: TaskId) returns (r: Result<()>)
    requires db.Valid()
    modifies db`tasks
    ensures db.Valid()
    ensures var c := TaskCheck(old(db.tasks), db.projects, db.members, userId, taskId, Ownership);
      (c.Some? ==> r == Err(c.value))
      && (c.None? ==> (r.Ok? <==> !TasksReferenced({taskId}, db.comments, db.checklist, db.files)))
      && (c.None? && r.Err? ==> r.error == DataIntegrityViolation)
    ensures r.Err? ==> db.tasks == old(db.tasks)
    ensures r.Ok? ==> taskId in old(db.tasks) && db.tasks == Without(old(db.tasks), {taskId})
  {
    var c := TaskCheck(db.tasks, db.projects, db.members, userId, taskId, Ownership);
    if c.Some? { return Err(c.value); }
    if TasksReferenced({taskId}, db.comments, db.checklist, db.files) {
      return Err(DataIntegrityViolation);
    }
    db.RemoveTasks({taskId});
    r := Ok(());
  }

  /**
   * permanentDeleteProject: only the owner; the project goes with all its
   * tasks, deleted or not, through the cascade on Project.tasks, unless one of
   * those tasks is still referenced: then the delete is refused and nothing
   * changes.
   */
  method PermanentDeleteProject(db: Store, userId: UserId, projectId: ProjectId) returns (r: Result<()>)
    requires db.Valid()
    modifies db`projects, db`tasks
    ensures db.Valid()
    ensures var c := ProjectCheck(old(db.projects), db.members, userId, projectId, Ownership);
      (c.Some? ==> r == Err(c.value))
      && (c.None? ==> (r.Ok? <==> !TasksReferenced(TasksOf(old(db.tasks), {projectId}), db.comments, db.checklist, db.files)))
      && (c.None? && r.Err? ==> r.error == DataIntegrityViolation)
    ensures r.Err? ==> db.projects == old(db.projects) && db.tasks == old(db.tasks)
    ensures r.Ok? ==> projectId in old(db.projects) && db.projects == Without(old(db.projects), {projectId})
                      && db.tasks == Without(old(db.tasks), TasksOf(old(db.tasks), {projectId}))
  {
    var c := ProjectCheck(db.projects, db.members, userId, projectId, Ownership);
    if c.Some? { return Err(c.value); }
    if TasksReferenced(TasksOf(db.tasks, {projectId}), db.comments, db.checklist, db.files) {
      return Err(DataIntegrityViolation);
    }
    db.CascadeRemoveProjects({projectId});
    r := Ok(());
  }

  /**
   * emptyTrash: only the owner; first the workspace's tasks deleted more than
   * 30 days ago are removed, then its projects deleted more than 30 days ago.
   * Both are bulk deletes that no cascade follows: the first is refused while a
   * comment, checklist item or attachment references a purged task, the second
   * while any remaining task belongs to a purged project, and either refusal
   * rolls both back. The result is the number of tasks plus the number of
   * projects removed.
   */
  method EmptyTrash(db: Store, userId: UserId, ws: WorkspaceId, now: Time) returns (r: Result<nat>)
    requires db.Valid()
    modifies db`projects, db`tasks
    ensures db.Valid()
    ensures var g := Guard(db.members, ws, userId, Ownership, WorkspaceAccessDenied, AccessDenied);
      var purgedTasks := TaskRepository.PurgeSet(old(db.tasks), old(db.projects), ws, now);
      var purgedProjects := ProjectRepository.PurgeSet(old(db.projects), ws, now);
      (g.Some? ==> r == Err(g.value))
      && (g.None? ==> (r.Ok? <==> !TasksReferenced(purgedTasks, db.comments, db.checklist, db.files)
                                  && TasksOf(Without(old(db.tasks), purgedTasks), purgedProjects) == {}))
      && (g.None? && r.Err? ==> r.error == DataIntegrityViolation)
      && (r.Ok? ==> r.value == |purgedTasks| + |purgedProjects|
                    && db.tasks == Without(old(db.tasks), purgedTasks)
                    && db.projects == Without(old(db.projects), purgedProjects))
    ensures r.Err? ==> db.projects == old(db.projects) && db.tasks == old(db.tasks)
  {
    var g := Guard(db.members, ws, userId, Ownership, WorkspaceAccessDenied, AccessDenied);
    if g.Some? { return Err(g.value); }
    var purgedTasks := TaskRepository.PurgeSet(db.tasks, db.projects, ws, now);
    if TasksReferenced(purgedTasks, db.comments, db.checklist, db.files) {
      return Err(DataIntegrityViolation);
    }
    var purgedProjects := ProjectRepository.PurgeSet(db.projects, ws, now);
    if TasksOf(Without(db.tasks, purgedTasks), purgedProjects) != {} {
      // The project purge would be refused, and its rollback takes the task purge back too.
      return Err(DataIntegrityViolation);
    }
    db.RemoveTasks(purgedTasks);
    db.RemoveProjects(purgedProjects);
    r := Ok(|purgedTasks| + |purgedProjects|);
  }

  /** The purge window: a task trashed 31 days ago goes, one trashed 29 days ago stays. */
  lemma PurgeWindow(t: Task, projects: map<ProjectId, Project>, ws: WorkspaceId, now: Time)
    requires TaskRepository.InWorkspace(t, projects, ws) && t.life.Consistent()
    ensures t.life == t.life.Delete(now - 31 * DAY) ==> TaskRepository.Purgeable(t, projects, ws, now)
    ensures t.life.isDeleted && t.life.deletedAt == Some(now - 29 * DAY) ==> !TaskRepository.Purgeable(t, projects, ws, now)
  {
  }

  /** An ADMIN passes the guard for the trash listings and restore but not for deleting for good. */
  lemma AdminCannotPurge(members: map<MemberId, WorkspaceMember>, ws: WorkspaceId, userId: UserId)
    requires UniquePairs(members)
    requires FindMember(members, ws, userId).Some? && members[FindMember(members, ws, userId).value].role == Admin
    ensures Guard(members, ws, userId, ManageProjects, WorkspaceAccessDenied, AccessDenied).None?
    ensures Guard(members, ws, userId, Ownership, WorkspaceAccessDenied, AccessDenied) == Some(AccessDenied)
  {
  }
}
