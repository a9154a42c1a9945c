/**
 * Project use cases. Creating, updating and deleting need a membership that
 * may manage projects; reading needs any membership. A project is listed with
 * the number of tasks it holds, soft-deleted ones included, and deleting a
 * project removes the row and, through the cascade, its tasks.
 */
module ProjectService {
  import opened Common
  import opened BaseEntity
  import opened Members
  import opened Tasks
  import opened Entities
  import opened StoreState
  import TaskRepository
  import ProjectRepository

  /** The request body of create and update. */
  datatype ProjectRequest = ProjectRequest(name: string, description: Option<string>)

  /** A project as the API returns it, with its task count. */
  datatype ProjectView = ProjectView(project: Project, taskCount: nat)

  /** Each project with the size of its task collection. */
  function Views(ps: seq<Project>, tasks: map<TaskId, Task>): (r: seq<ProjectView>)
    ensures |r| == |ps|
    ensures forall i :: 0 <= i < |ps| ==> r[i].project == ps[i] && r[i].taskCount == TaskRepository.CountByProjectId(tasks, ps[i].id)
  {
    seq(|ps|, i requires 0 <= i < |ps| => ProjectView(ps[i], TaskRepository.CountByProjectId(tasks, ps[i].id)))
  }

  /**
   * The checks of createProject, in source order: a membership
   * (WORKSPACE_ACCESS_DENIED), the right to manage projects
   * (PROJECT_CREATE_DENIED), then the workspace row (WORKSPACE_NOT_FOUND).
   */
  function CreateCheck(db: map<WorkspaceId, Workspace>, members: map<MemberId, WorkspaceMember>,
                       userId: UserId, ws: WorkspaceId): (r: Option<ErrorCode>)
    requires UniquePairs(members)
    ensures Guard(members, ws, userId, ManageProjects, WorkspaceAccessDenied, ProjectCreateDenied).Some? ==>
      r == Guard(members, ws, userId, ManageProjects, WorkspaceAccessDenied, ProjectCreateDenied)
    ensures r.None? <==> Guard(members, ws, userId, ManageProjects, WorkspaceAccessDenied, ProjectCreateDenied).None? && ws in db
    ensures r == Some(WorkspaceNotFound) ==> ws !in db
  {
    var g := Guard(members, ws, userId, ManageProjects, WorkspaceAccessDenied, ProjectCreateDenied);
    if g.Some? then g else if ws !in db then Some(WorkspaceNotFound) else None
  }

  /** createProject: a new live project in the workspace, answered with a task count of 0. */
  method CreateProject(db: Store, userId: UserId, ws: WorkspaceId, req: ProjectRequest, now: Time) returns (r: Result<ProjectView>)
    requires db.Valid()
    modifies db`projects, db`nextId
    ensures db.Valid()
    ensures var c := CreateCheck(db.workspaces, db.members, userId, ws);
      (c.Some? ==> r == Err(c.value) && db.projects == old(db.projects) && db.nextId == old(db.nextId))
      && (c.None? ==> (r.Ok? && r.value.taskCount == 0 && r.value.project.id == old(db.nextId)
                       && r.value.project.id !in old(db.projects)
                       && r.value.project == Project(r.value.project.id, req.name, req.description, ws, Created(now))
                       && db.projects == old(db.projects)[r.value.project.id := r.value.project]))
  {
    var c := CreateCheck(db.workspaces, db.members, userId, ws);
    if c.Some? { return Err(c.value); }
    var id := db.NewId();
    var p := Project(id, req.name, req.description, ws, Created(now));
    db.projects := db.projects[id := p];
    r := Ok(ProjectView(p, 0));
  }

  /**
   * getProjects: for any member, every project of the workspace, deleted ones
   * included, each with its task count.
   */
  method GetProjects(db: Store, userId: UserId, ws: WorkspaceId) returns (r: Result<seq<ProjectView>>)
    requires db.Valid()
    ensures FindMember(db.members, ws, userId).None? <==> r == Err(WorkspaceAccessDenied)
    ensures r.Err? ==> r == Err(WorkspaceAccessDenied)
    ensures r.Ok? ==> forall v :: v in r.value <==>
      v.project in db.projects.Values && v.project.workspace == ws
      && v.taskCount == TaskRepository.CountByProjectId(db.tasks, v.project.id)
    ensures r.Ok? ==> forall i, j :: 0 <= i < j < |r.value| ==> r.value[i].project.id != r.value[j].project.id
  {
    if FindMember(db.members, ws, userId).None? { return Err(WorkspaceAccessDenied); }
    var rows := db.ProjectRows();
    assert forall p :: p in rows <==> p in db.projects.Values by {
      forall p | p in db.projects.Values ensures p in rows {
        var k :| k in db.projects && db.projects[k] == p;
        var i :| 0 <= i < |rows| && rows[i].id == k;
      }
    }
    var found := ProjectRepository.FindAllByWorkspaceId(rows, ws);
    ProjectRepository.DistinctIdsInSub(rows, found);
    var views := Views(found, db.tasks);
    assert forall v :: v in views <==> v.project in found && v.taskCount == TaskRepository.CountByProjectId(db.tasks, v.project.id) by {
      forall v: ProjectView | v in views ensures v.project in found {
        var i :| 0 <= i < |views| && views[i] == v;
      }
      forall v: ProjectView | v.project in found && v.taskCount == TaskRepository.CountByProjectId(db.tasks, v.project.id)
        ensures v in views
      {
        var i :| 0 <= i < |found| && found[i] == v.project;
        assert views[i] == v;
      }
    }
    r := Ok(views);
  }

  /**
   * The lookup every single-project operation starts with: the project row
   * (PROJECT_NOT_FOUND), then the caller's membership of its workspace
   * (WORKSPACE_ACCESS_DENIED) and the capability (denied).
   */
  function ProjectAccess(projects: map<ProjectId, Project>, members: map<MemberId, WorkspaceMember>,
                         userId: UserId, projectId: ProjectId, c: Capability, denied: ErrorCode): (r: Result<Project>)
    requires UniquePairs(members)
    ensures projectId !in projects ==> r == Err(ProjectNotFound)
    ensures projectId in projects ==>
      var g := Guard(members, projects[projectId].workspace, userId, c, WorkspaceAccessDenied, denied);
      (g.Some? ==> r == Err(g.value)) && (g.None? ==> r == Ok(projects[projectId]))
  {
    if projectId !in projects then Err(ProjectNotFound)
    else
      var g := Guard(members, projects[projectId].workspace, userId, c, WorkspaceAccessDenied, denied);
      if g.Some? then Err(g.value) else Ok(projects[projectId])
  }

  /** getProject: the project, deleted or not, with its task count, for any member of its workspace. */
  function GetProject(projects: map<ProjectId, Project>, tasks: map<TaskId, Task>, members: map<MemberId, WorkspaceMember>,
                      userId: UserId, projectId: ProjectId): (r: Result<ProjectView>)
    requires UniquePairs(members)
    ensures projectId !in projects ==> r == Err(ProjectNotFound)
    ensures projectId in projects && FindMember(members, projects[projectId].workspace, userId).None? ==>
      r == Err(WorkspaceAccessDenied)
    ensures r.Ok? ==> (projectId in projects && r.value.project == projects[projectId]
                       && r.value.taskCount == |set k | k in tasks && tasks[k].project == projectId|
                       && FindMember(members, projects[projectId].workspace, userId).Some?)
  {
    match ProjectAccess(projects, members, userId, projectId, AnyRole, WorkspaceAccessDenied)
      case Err(e) => Err(e)
      case Ok(p) => Ok(ProjectView(p, TaskRepository.CountByProjectId(tasks, projectId)))
  }

  /**
   * updateProject as written: it runs in a read-only transaction, which does
   * not flush the changed entity, so the answer carries the new name and
   * description while the table keeps the old ones.
   */
  method UpdateProjectAsWritten(db: Store, userId: UserId, projectId: ProjectId, req: ProjectRequest) returns (r: Result<ProjectView>)
    requires db.Valid()
    ensures var a := ProjectAccess(db.projects, db.members, userId, projectId, ManageProjects, ProjectUpdateDenied);
      (a.Err? ==> r == Err(a.error))
      && (a.Ok? ==> r == Ok(ProjectView(a.value.UpdateInfo(req.name, req.description),
                                        TaskRepository.CountByProjectId(db.tasks, projectId))))
  {
    var a := ProjectAccess(db.projects, db.members, userId, projectId, ManageProjects, ProjectUpdateDenied);
    if a.Err? { return Err(a.error); }
    r := Ok(ProjectView(a.value.UpdateInfo(req.name, req.description), TaskRepository.CountByProjectId(db.tasks, projectId)));
  }

  /**
   * The discrepancy: after a successful update as written, the stored project
   * differs from the one returned whenever the request changes its name.
   */
  lemma UpdateAsWrittenIsLost(p: Project, req: ProjectRequest)
    requires req.name != p.name
    ensures p.UpdateInfo(req.name, req.description) != p
  {
  }

  /**
   * updateProject as intended: in a read-write transaction the new name and
   * description are stored, and the answer is the stored row.
   */
  method UpdateProject(db: Store, userId: UserId, projectId: ProjectId, req: ProjectRequest) returns (r: Result<ProjectView>)
    requires db.Valid()
    modifies db`projects
    ensures db.Valid()
    ensures var a := ProjectAccess(old(db.projects), db.members, userId, projectId, ManageProjects, ProjectUpdateDenied);
      (a.Err? ==> r == Err(a.error) && db.projects == old(db.projects))
      && (a.Ok? ==> r.Ok? && r.value.project == a.value.UpdateInfo(req.name, req.description)
                    && db.projects == old(db.projects)[projectId := r.value.project]
                    && r.value.taskCount == TaskRepository.CountByProjectId(db.tasks, projectId))
  {
    var a := ProjectAccess(db.projects, db.members, userId, projectId, ManageProjects, ProjectUpdateDenied);
    if a.Err? { return Err(a.error); }
    var p := a.value.UpdateInfo(req.name, req.description);
    db.projects := db.projects[projectId := p];
    r := Ok(ProjectView(p, TaskRepository.CountByProjectId(db.tasks, projectId)));
  }

  /**
   * deleteProject: a hard delete, not the soft delete the trash expects; the
   * project and, through the cascade on Project.tasks, all its tasks leave the
   * tables, unless a comment, checklist item or attachment still references
   * one of those tasks: then the foreign keys refuse and nothing changes.
   */
  method DeleteProject(db: Store, userId: UserId, projectId: ProjectId) returns (r: Result<()>)
    requires db.Valid()
    modifies db`projects, db`tasks
    ensures db.Valid()
    ensures var a := ProjectAccess(old(db.projects), db.members, userId, projectId, ManageProjects, ProjectDeleteDenied);
      (a.Err? ==> r == Err(a.error))
      && (a.Ok? ==> (r.Ok? <==> !TasksReferenced(TasksOf(old(db.tasks), {projectId}), db.comments, db.checklist, db.files)))
      && (a.Ok? && r.Err? ==> r.error == DataIntegrityViolation)
    ensures r.Err? ==> db.projects == old(db.projects) && db.tasks == old(db.tasks)
    ensures r.Ok? ==> (projectId !in db.projects && db.projects == Without(old(db.projects), {projectId})
                       && db.tasks == Without(old(db.tasks), TasksOf(old(db.tasks), {projectId}))
                       && forall k :: k in db.tasks ==> db.tasks[k].project != projectId)
  {
    var a := ProjectAccess(db.projects, db.members, userId, projectId, ManageProjects, ProjectDeleteDenied);
    if a.Err? { return Err(a.error); }
    if TasksReferenced(TasksOf(db.tasks, {projectId}), db.comments, db.checklist, db.files) {
      return Err(DataIntegrityViolation);
    }
    db.CascadeRemoveProjects({projectId});
    r := Ok(());
  }

  /** A deleted project cannot be restored: it is not in the trash listing afterwards. */
  lemma DeletedProjectNotInTrash(projects: map<ProjectId, Project>, projectId: ProjectId, rows: seq<Project>, ws: WorkspaceId)
    requires EnumeratesProjects(rows, Without(projects, {projectId}))
    ensures forall p :: p in ProjectRepository.FindDeletedByWorkspaceId(rows, ws) ==> p.id != projectId
  {
    forall p | p in ProjectRepository.FindDeletedByWorkspaceId(rows, ws) ensures p.id != projectId {
      var i :| 0 <= i < |rows| && rows[i] == p;
    }
  }
}
