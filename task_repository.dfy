/**
 * The task queries: each finder is a filter over the rows the database holds,
 * followed by its ORDER BY; the counts are cardinalities over the table; the
 * purge selects the rows its DELETE removes.
 */
module TaskRepository {
  import opened Common
  import opened BaseEntity
  import opened Tasks
  import opened Entities
  import opened JavaStrings

  /** The ORDER BY clauses the finders use. */
  datatype Order = CreatedAtDesc | DueDateAsc | DeletedAtDesc

  /**
   * a may be listed before b. A missing due date sorts first in ascending
   * order and a missing deletion time last in descending order, as NULL does.
   */
  predicate Precedes(o: Order, a: Task, b: Task)
  {
    match o
      case CreatedAtDesc => a.life.createdAt >= b.life.createdAt
      case DueDateAsc => a.dueDate.None? || (b.dueDate.Some? && a.dueDate.value <= b.dueDate.value)
      case DeletedAtDesc => b.life.deletedAt.None? || (a.life.deletedAt.Some? && a.life.deletedAt.value >= b.life.deletedAt.value)
  }

  predicate Sorted(o: Order, s: seq<Task>)
  {
    forall i, j :: 0 <= i < j < |s| ==> Precedes(o, s[i], s[j])
  }

  /** No id occurs twice: what the primary key guarantees of the table. */
  predicate DistinctIds(s: seq<Task>)
  {
    forall i, j :: 0 <= i < j < |s| ==> s[i].id != s[j].id
  }

  /** A query result that takes no row more often than the table has it repeats no id when the table repeats none. */
  lemma DistinctIdsInSub(rows: seq<Task>, r: seq<Task>)
    requires multiset(r) <= multiset(rows)
    ensures DistinctIds(rows) ==> DistinctIds(r)
  {
    if DistinctIds(rows) {
      DistinctKeysInSub(rows, r, (x: Task) => x.id);
    }
  }

  /** Each order is total: of two rows, one may come first. */
  lemma PrecedesTotal(o: Order, a: Task, b: Task)
    ensures Precedes(o, a, b) || Precedes(o, b, a)
  {
  }

  /** The head of a sorted list may come before every row of it. */
  lemma HeadPrecedesAll(o: Order, s: seq<Task>)
    requires Sorted(o, s) && s != []
    ensures forall y :: y in s ==> Precedes(o, s[0], y)
  {
    forall y | y in s ensures Precedes(o, s[0], y) { var j :| 0 <= j < |s| && s[j] == y; if j > 0 { } }
  }

  /** The head of a sorted list may come before x and every row of its tail. */
  lemma HeadPrecedesRest(o: Order, s: seq<Task>, x: Task, rest: seq<Task>)
    requires Sorted(o, s) && s != [] && Precedes(o, s[0], x)
    requires forall y :: y in rest ==> y == x || y in s[1..]
    ensures forall y :: y in rest ==> Precedes(o, s[0], y)
  {
    HeadPrecedesAll(o, s);
  }

  function Insert(o: Order, x: Task, s: seq<Task>): (r: seq<Task>)
    requires Sorted(o, s)
    ensures Sorted(o, r)
    ensures multiset(r) == multiset(s) + multiset{x}
    ensures forall y :: y in r ==> y == x || y in s
  {
    if s == [] then [x]
    else if Precedes(o, x, s[0]) then
      HeadPrecedesAll(o, s);
      [x] + s
    else
      var rest := Insert(o, x, s[1..]);
      PrecedesTotal(o, x, s[0]);
      HeadPrecedesRest(o, s, x, rest);
      assert s == [s[0]] + s[1..];
      [s[0]] + rest
  }

  /** The ORDER BY: a sorted permutation of the rows (ties keep no promised order). */
  function SortBy(o: Order, s: seq<Task>): (r: seq<Task>)
    ensures Sorted(o, r)
    ensures multiset(r) == multiset(s)
  {
    if s == [] then [] else
      assert s == s[..|s| - 1] + [s[|s| - 1]];
      Insert(o, s[|s| - 1], SortBy(o, s[..|s| - 1]))
  }

  /** The WHERE clause: the rows that satisfy keep, in their original order. */
  function Select(rows: seq<Task>, keep: Task -> bool): (r: seq<Task>)
    ensures forall t :: t in r <==> t in rows && keep(t)
    ensures multiset(r) <= multiset(rows)
  {
    if rows == [] then []
    else
      var rest := Select(rows[..|rows| - 1], keep);
      var last := rows[|rows| - 1];
      assert rows == rows[..|rows| - 1] + [last];
      if keep(last) then rest + [last] else rest
  }

  /** t.project.workspace.id = :workspaceId (an inner join through the project). */
  predicate InWorkspace(t: Task, projects: map<ProjectId, Project>, ws: WorkspaceId)
  {
    t.project in projects && projects[t.project].workspace == ws
  }

  /** The optional filters of the task search; an absent filter is IS NULL and lets every row through. */
  datatype SearchFilter = SearchFilter(
    keyword: Option<string>,
    status: Option<Status>,
    priority: Option<Priority>,
    assigneeId: Option<UserId>,
    projectId: Option<ProjectId>,
    dueDateFrom: Option<Day>,
    dueDateTo: Option<Day>)

  predicate KeywordMatches(t: Task, keyword: Option<string>)
  {
    keyword.None?
    || Contains(t.title, keyword.value)
    || (t.description.Some? && Contains(t.description.value, keyword.value))
  }

  /** A comparison with a NULL column is never true, so date bounds drop tasks without a due date. */
  predicate SearchMatches(t: Task, projects: map<ProjectId, Project>, ws: WorkspaceId, f: SearchFilter)
  {
    InWorkspace(t, projects, ws)
    && KeywordMatches(t, f.keyword)
    && (f.status.None? || t.status == f.status.value)
    && (f.priority.None? || t.priority == Some(f.priority.value))
    && (f.assigneeId.None? || t.assignee == Some(f.assigneeId.value))
    && (f.projectId.None? || t.project == f.projectId.value)
    && (f.dueDateFrom.None? || (t.dueDate.Some? && t.dueDate.value >= f.dueDateFrom.value))
    && (f.dueDateTo.None? || (t.dueDate.Some? && t.dueDate.value <= f.dueDateTo.value))
  }

  /** searchTasks: the matching rows of the workspace, newest first. */
  function SearchTasks(rows: seq<Task>, projects: map<ProjectId, Project>, ws: WorkspaceId, f: SearchFilter)
    : (r: seq<Task>)
    ensures forall t :: t in r <==> t in rows && SearchMatches(t, projects, ws, f)
    ensures Sorted(CreatedAtDesc, r)
    ensures multiset(r) <= multiset(rows)
  {
    var hits := Select(rows, t => SearchMatches(t, projects, ws, f));
    var r := SortBy(CreatedAtDesc, hits);
    assert forall t :: t in r <==> t in hits by {
      forall t ensures t in r <==> t in hits { assert t in r <==> t in multiset(r); }
    }
    r
  }

  /** With no filter at all, the search lists every task of the workspace. */
  lemma {:induction false} EmptyFilterListsWorkspace(rows: seq<Task>, projects: map<ProjectId, Project>, ws: WorkspaceId)
    ensures forall t ::
      (t in SearchTasks(rows, projects, ws, SearchFilter(None, None, None, None, None, None, None))
      <==> t in rows && InWorkspace(t, projects, ws))
  {
  }

  predicate Upcoming(t: Task, projects: map<ProjectId, Project>, ws: WorkspaceId, today: Day, endDate: Day)
  {
    InWorkspace(t, projects, ws) && t.status != Done
    && t.dueDate.Some? && today <= t.dueDate.value <= endDate
  }

  /** findUpcomingTasks: open tasks of the workspace due in [today, endDate], soonest first. */
  function FindUpcomingTasks(rows: seq<Task>, projects: map<ProjectId, Project>, ws: WorkspaceId, today: Day, endDate: Day)
    : (r: seq<Task>)
    ensures forall t :: t in r <==> t in rows && Upcoming(t, projects, ws, today, endDate)
    ensures Sorted(DueDateAsc, r)
    ensures multiset(r) <= multiset(rows)
  {
    var hits := Select(rows, t => Upcoming(t, projects, ws, today, endDate));
    var r := SortBy(DueDateAsc, hits);
    assert forall t :: t in r <==> t in hits by {
      forall t ensures t in r <==> t in hits { assert t in r <==> t in multiset(r); }
    }
    r
  }

  predicate DueBetween(t: Task, startDate: Day, endDate: Day)
  {
    t.dueDate.Some? && startDate <= t.dueDate.value <= endDate && t.status != Done && t.assignee.Some?
  }

  /**
   * findTasksDueBetween: open, assigned tasks due in [startDate, endDate], in every
   * workspace and whatever their deletion flag; no ORDER BY, so in table order.
   */
  function FindTasksDueBetween(rows: seq<Task>, startDate: Day, endDate: Day): (r: seq<Task>)
    ensures forall t :: t in r <==> t in rows && DueBetween(t, startDate, endDate)
    ensures multiset(r) <= multiset(rows)
  {
    Select(rows, t => DueBetween(t, startDate, endDate))
  }

  /** findDeletedByWorkspaceId: the soft-deleted tasks of the workspace, most recently deleted first. */
  function FindDeletedByWorkspaceId(rows: seq<Task>, projects: map<ProjectId, Project>, ws: WorkspaceId): (r: seq<Task>)
    ensures forall t :: t in r <==> t in rows && InWorkspace(t, projects, ws) && t.life.isDeleted
    ensures Sorted(DeletedAtDesc, r)
    ensures multiset(r) <= multiset(rows)
  {
    var hits := Select(rows, t => InWorkspace(t, projects, ws) && t.life.isDeleted);
    var r := SortBy(DeletedAtDesc, hits);
    assert forall t :: t in r <==> t in hits by {
      forall t ensures t in r <==> t in hits { assert t in r <==> t in multiset(r); }
    }
    r
  }

  /** findAllByAssigneeId: the user's tasks, by due date (tasks without one first). */
  function FindAllByAssigneeId(rows: seq<Task>, user: UserId): (r: seq<Task>)
    ensures forall t :: t in r <==> t in rows && t.assignee == Some(user)
    ensures Sorted(DueDateAsc, r)
    ensures multiset(r) <= multiset(rows)
  {
    var hits := Select(rows, (t: Task) => t.assignee == Some(user));
    var r := SortBy(DueDateAsc, hits);
    assert forall t :: t in r <==> t in hits by {
      forall t ensures t in r <==> t in hits { assert t in r <==> t in multiset(r); }
    }
    r
  }

  /** countByProjectId: every task of the project, soft-deleted ones included. */
  function CountByProjectId(tasks: map<TaskId, Task>, p: ProjectId): (r: nat)
    ensures r == |set k | k in tasks && tasks[k].project == p|
    ensures r == 0 <==> forall k :: k in tasks ==> tasks[k].project != p
  {
    var s := set k | k in tasks && tasks[k].project == p;
    EmptyUnlessSome(tasks, p, s);
    |s|
  }

  lemma EmptyUnlessSome(tasks: map<TaskId, Task>, p: ProjectId, s: set<TaskId>)
    requires s == set k | k in tasks && tasks[k].project == p
    ensures |s| == 0 <==> forall k :: k in tasks ==> tasks[k].project != p
  {
    if k :| k in tasks && tasks[k].project == p {
      assert k in s;
    }
  }

  function CountByWorkspaceId(tasks: map<TaskId, Task>, projects: map<ProjectId, Project>, ws: WorkspaceId): nat
  {
    |set k | k in tasks && InWorkspace(tasks[k], projects, ws)|
  }

  function AssignedIn(tasks: map<TaskId, Task>, projects: map<ProjectId, Project>, ws: WorkspaceId, u: UserId): set<TaskId>
  {
    set k | k in tasks && InWorkspace(tasks[k], projects, ws) && tasks[k].assignee == Some(u)
  }

  function CompletedIn(tasks: map<TaskId, Task>, projects: map<ProjectId, Project>, ws: WorkspaceId, u: UserId): set<TaskId>
  {
    set k | k in tasks && InWorkspace(tasks[k], projects, ws) && tasks[k].assignee == Some(u) && tasks[k].status == Done
  }

  function Assignees(tasks: map<TaskId, Task>, projects: map<ProjectId, Project>, ws: WorkspaceId, doneOnly: bool): set<UserId>
  {
    set k | k in tasks && InWorkspace(tasks[k], projects, ws) && tasks[k].assignee.Some? && (doneOnly ==> tasks[k].status == Done)
      :: tasks[k].assignee.value
  }

  lemma GroupNotEmpty(tasks: map<TaskId, Task>, projects: map<ProjectId, Project>, ws: WorkspaceId, doneOnly: bool, u: UserId)
    requires u in Assignees(tasks, projects, ws, doneOnly)
    ensures doneOnly ==> |CompletedIn(tasks, projects, ws, u)| > 0
    ensures |AssignedIn(tasks, projects, ws, u)| > 0
  {
    var k :| k in tasks && InWorkspace(tasks[k], projects, ws) && tasks[k].assignee.Some?
      && (doneOnly ==> tasks[k].status == Done) && tasks[k].assignee.value == u;
    assert k in AssignedIn(tasks, projects, ws, u);
    if doneOnly { assert k in CompletedIn(tasks, projects, ws, u); }
  }

  /** countByWorkspaceIdGroupByAssignee: one group per assignee with a task in the workspace. */
  function CountGroupByAssignee(tasks: map<TaskId, Task>, projects: map<ProjectId, Project>, ws: WorkspaceId)
    : (r: map<UserId, nat>)
    ensures forall u :: u in r <==> exists k :: k in tasks && InWorkspace(tasks[k], projects, ws) && tasks[k].assignee == Some(u)
    ensures forall u :: u in r ==> r[u] == |AssignedIn(tasks, projects, ws, u)|
    ensures forall u :: u in r ==> r[u] > 0
  {
    var r := map u | u in Assignees(tasks, projects, ws, false) :: |AssignedIn(tasks, projects, ws, u)|;
    assert forall u :: u in r ==> r[u] > 0 by {
      forall u | u in r ensures r[u] > 0 { GroupNotEmpty(tasks, projects, ws, false, u); }
    }
    r
  }

  /** countCompletedByWorkspaceIdGroupByAssignee: the same groups restricted to DONE tasks. */
  function CountCompletedGroupByAssignee(tasks: map<TaskId, Task>, projects: map<ProjectId, Project>, ws: WorkspaceId)
    : (r: map<UserId, nat>)
    ensures forall u :: u in r <==>
      exists k :: k in tasks && InWorkspace(tasks[k], projects, ws) && tasks[k].assignee == Some(u) && tasks[k].status == Done
    ensures forall u :: u in r ==> r[u] == |CompletedIn(tasks, projects, ws, u)|
    ensures forall u :: u in r ==> r[u] > 0
  {
    var r := map u | u in Assignees(tasks, projects, ws, true) :: |CompletedIn(tasks, projects, ws, u)|;
    assert forall u :: u in r ==> r[u] > 0 by {
      forall u | u in r ensures r[u] > 0 { GroupNotEmpty(tasks, projects, ws, true, u); }
    }
    r
  }

  lemma SubsetCard<T>(a: set<T>, b: set<T>)
    requires a <= b
    ensures |a| <= |b|
  {
    assert b == a + (b - a);
  }

  /** Every member with completed tasks has an assigned-task group at least as large. */
  lemma CompletedWithinAssigned(tasks: map<TaskId, Task>, projects: map<ProjectId, Project>, ws: WorkspaceId, u: UserId)
    requires u in CountCompletedGroupByAssignee(tasks, projects, ws)
    ensures u in CountGroupByAssignee(tasks, projects, ws)
    ensures CountCompletedGroupByAssignee(tasks, projects, ws)[u] <= CountGroupByAssignee(tasks, projects, ws)[u]
  {
    var k :| k in tasks && InWorkspace(tasks[k], projects, ws) && tasks[k].assignee.Some?
      && tasks[k].status == Done && tasks[k].assignee.value == u;
    assert u in Assignees(tasks, projects, ws, false);
    SubsetCard(CompletedIn(tasks, projects, ws, u), AssignedIn(tasks, projects, ws, u));
  }

  /** The rows deleteOldDeletedItems removes: soft-deleted tasks of the workspace deleted over 30 days before now. */
  predicate Purgeable(t: Task, projects: map<ProjectId, Project>, ws: WorkspaceId, now: Time)
  {
    InWorkspace(t, projects, ws) && t.life.isDeleted
    && t.life.deletedAt.Some? && t.life.deletedAt.value < now - 30 * DAY
  }

  function PurgeSet(tasks: map<TaskId, Task>, projects: map<ProjectId, Project>, ws: WorkspaceId, now: Time): (r: set<TaskId>)
    ensures forall k :: k in r <==> k in tasks && Purgeable(tasks[k], projects, ws, now)
  {
    set k | k in tasks && Purgeable(tasks[k], projects, ws, now)
  }

  /** Nothing live is ever purged, and nothing deleted within the last 30 days. */
  lemma PurgeSparesRecent(tasks: map<TaskId, Task>, projects: map<ProjectId, Project>, ws: WorkspaceId, now: Time, k: TaskId)
    requires k in tasks
    requires !tasks[k].life.isDeleted || (tasks[k].life.deletedAt.Some? && tasks[k].life.deletedAt.value >= now - 30 * DAY)
    ensures k !in PurgeSet(tasks, projects, ws, now)
  {
  }
}
