/**
 * Task and project search. Both searches only need a membership, and both
 * hand the request's filters unchanged to the repository queries; a project
 * result carries the project's task count. As written, the membership helper
 * takes (workspace, user) but is called with (user, workspace), so the lookup
 * asks whether the workspace id is a user of the workspace named by the user
 * id. The searches follow the code as written; the intended lookup is kept
 * beside them to show where the two disagree.
 */
module SearchService {
  import opened Common
  import opened Members
  import opened Tasks
  import opened Entities
  import TaskRepository
  import ProjectRepository

  /** A project search hit: the project and how many tasks it has. */
  datatype ProjectResult = ProjectResult(project: Project, taskCount: nat)

  /** findMemberOrThrow, with its parameters in the declared order (workspace, user). */
  function FindMemberOrThrow(members: map<MemberId, WorkspaceMember>, ws: WorkspaceId, userId: UserId): (r: Result<WorkspaceMember>)
    requires UniquePairs(members)
    ensures r.Ok? <==> exists k :: k in members && IsMembership(members[k], ws, userId)
    ensures r.Err? ==> r.error == WorkspaceAccessDenied
  {
    MemberOrThrow(members, ws, userId, WorkspaceAccessDenied)
  }

  /** The gate as written: the helper receives the user id as the workspace and the workspace id as the user. */
  function Gate(members: map<MemberId, WorkspaceMember>, userId: UserId, ws: WorkspaceId): (r: Option<ErrorCode>)
    requires UniquePairs(members)
    ensures r.None? <==> exists k :: k in members && members[k].workspace == userId && members[k].user == ws
    ensures r.Some? ==> r.value == WorkspaceAccessDenied
  {
    match FindMemberOrThrow(members, userId, ws)
      case Err(e) => Some(e)
      case Ok(_) => None
  }

  /** The intended gate: the caller is a member of the workspace searched. */
  function IntendedGate(members: map<MemberId, WorkspaceMember>, userId: UserId, ws: WorkspaceId): (r: Option<ErrorCode>)
    requires UniquePairs(members)
    ensures r.None? <==> exists k :: k in members && IsMembership(members[k], ws, userId)
    ensures r.Some? ==> r.value == WorkspaceAccessDenied
  {
    match FindMemberOrThrow(members, ws, userId)
      case Err(e) => Some(e)
      case Ok(_) => None
  }

  /**
   * With one membership, user 2 in workspace 1: as written, user 2 is refused
   * a search of workspace 1, and user 1, a member of nothing, may search
   * workspace 2; the intended gate decides both the other way.
   */
  lemma SwappedGateExample()
    ensures var members := map[5 := WorkspaceMember(5, 1, 2, Viewer)];
      UniquePairs(members)
      && Gate(members, 2, 1) == Some(WorkspaceAccessDenied) && IntendedGate(members, 2, 1).None?
      && Gate(members, 1, 2).None? && IntendedGate(members, 1, 2) == Some(WorkspaceAccessDenied)
  {
    var members := map[5 := WorkspaceMember(5, 1, 2, Viewer)];
    assert IsMembership(members[5], 1, 2);
    assert forall k :: k in members ==> k == 5;
  }

  /** The two gates agree when the user id and the workspace id are the same number. */
  lemma GatesAgreeOnEqualIds(members: map<MemberId, WorkspaceMember>, id: nat)
    requires UniquePairs(members)
    ensures Gate(members, id, id) == IntendedGate(members, id, id)
  {
  }

  /**
   * searchTasks as written: past the swapped gate, the repository's hits for
   * the unchanged filter, in its order: exactly the matching tasks of the
   * workspace, newest first.
   */
  function SearchTasks(members: map<MemberId, WorkspaceMember>, rows: seq<Task>, projects: map<ProjectId, Project>,
                       userId: UserId, ws: WorkspaceId, f: TaskRepository.SearchFilter): (r: Result<seq<Task>>)
    requires UniquePairs(members)
    ensures r.Ok? <==> exists k :: k in members && members[k].workspace == userId && members[k].user == ws
    ensures r.Err? ==> r.error == WorkspaceAccessDenied
    ensures r.Ok? ==> forall t :: t in r.value <==> t in rows && TaskRepository.SearchMatches(t, projects, ws, f)
    ensures r.Ok? ==> TaskRepository.Sorted(TaskRepository.CreatedAtDesc, r.value)
    ensures r.Ok? ==> multiset(r.value) <= multiset(rows)
    ensures r.Ok? && TaskRepository.DistinctIds(rows) ==> TaskRepository.DistinctIds(r.value)
  {
    var g := Gate(members, userId, ws);
    if g.Some? then Err(g.value)
    else
      var hits := TaskRepository.SearchTasks(rows, projects, ws, f);
      TaskRepository.DistinctIdsInSub(rows, hits);
      Ok(hits)
  }

  /** searchTasks with the intended gate: a member of the workspace, and only a member, gets the same hits. */
  function SearchTasksIntended(members: map<MemberId, WorkspaceMember>, rows: seq<Task>, projects: map<ProjectId, Project>,
                               userId: UserId, ws: WorkspaceId, f: TaskRepository.SearchFilter): (r: Result<seq<Task>>)
    requires UniquePairs(members)
    ensures r.Ok? <==> exists k :: k in members && IsMembership(members[k], ws, userId)
    ensures r.Err? ==> r.error == WorkspaceAccessDenied
    ensures r.Ok? ==> forall t :: t in r.value <==> t in rows && TaskRepository.SearchMatches(t, projects, ws, f)
    ensures r.Ok? ==> multiset(r.value) <= multiset(rows)
    ensures r.Ok? && TaskRepository.DistinctIds(rows) ==> TaskRepository.DistinctIds(r.value)
  {
    var g := IntendedGate(members, userId, ws);
    if g.Some? then Err(g.value)
    else
      var hits := TaskRepository.SearchTasks(rows, projects, ws, f);
      TaskRepository.DistinctIdsInSub(rows, hits);
      Ok(hits)
  }

  /** ProjectResponse.of for every hit, in the hits' order, with countByProjectId as the task count. */
  function WithCounts(hits: seq<Project>, tasks: map<TaskId, Task>): (r: seq<ProjectResult>)
    ensures |r| == |hits|
    ensures forall i :: 0 <= i < |r| ==> r[i].project == hits[i] && r[i].taskCount == TaskRepository.CountByProjectId(tasks, hits[i].id)
  {
    if hits == [] then []
    else [ProjectResult(hits[0], TaskRepository.CountByProjectId(tasks, hits[0].id))] + WithCounts(hits[1..], tasks)
  }

  /** The hits with their counts: one result per hit, and no project twice when no hit repeats an id. */
  lemma WithCountsOfHits(hits: seq<Project>, tasks: map<TaskId, Task>)
    ensures forall x :: x in WithCounts(hits, tasks) <==>
      x.project in hits && x.taskCount == TaskRepository.CountByProjectId(tasks, x.project.id)
    ensures ProjectRepository.DistinctIds(hits) ==>
      forall i, j :: 0 <= i < j < |WithCounts(hits, tasks)| ==> WithCounts(hits, tasks)[i].project.id != WithCounts(hits, tasks)[j].project.id
  {
    var r := WithCounts(hits, tasks);
    forall x ensures x in r <==> x.project in hits && x.taskCount == TaskRepository.CountByProjectId(tasks, x.project.id) {
      if x.project in hits {
        var i :| 0 <= i < |hits| && hits[i] == x.project;
        assert r[i] == ProjectResult(hits[i], TaskRepository.CountByProjectId(tasks, hits[i].id));
      }
    }
  }

  /**
   * searchProjects as written: past the swapped gate, for each project of the
   * workspace whose name or description contains the keyword, newest first,
   * the project and its task count.
   */
  function SearchProjects(members: map<MemberId, WorkspaceMember>, rows: seq<Project>, tasks: map<TaskId, Task>,
                          userId: UserId, ws: WorkspaceId, keyword: Option<string>): (r: Result<seq<ProjectResult>>)
    requires UniquePairs(members)
    ensures r.Ok? <==> exists k :: k in members && members[k].workspace == userId && members[k].user == ws
    ensures r.Err? ==> r.error == WorkspaceAccessDenied
    ensures r.Ok? ==> forall x :: x in r.value <==>
      x.project in rows && x.project.workspace == ws && ProjectRepository.KeywordMatches(x.project, keyword)
      && x.taskCount == TaskRepository.CountByProjectId(tasks, x.project.id)
    ensures r.Ok? ==> forall i, j :: 0 <= i < j < |r.value| ==>
      ProjectRepository.Precedes(ProjectRepository.CreatedAtDesc, r.value[i].project, r.value[j].project)
    ensures r.Ok? && ProjectRepository.DistinctIds(rows) ==>
      forall i, j :: 0 <= i < j < |r.value| ==> r.value[i].project.id != r.value[j].project.id
  {
    var g := Gate(members, userId, ws);
    if g.Some? then Err(g.value)
    else
      var hits := ProjectRepository.SearchProjects(rows, ws, keyword);
      ProjectRepository.DistinctIdsInSub(rows, hits);
      WithCountsOfHits(hits, tasks);
      Ok(WithCounts(hits, tasks))
  }
}
