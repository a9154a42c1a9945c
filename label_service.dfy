/**
 * Workspace labels and their use on tasks. Creating, renaming and deleting a
 * label need a membership that may manage projects; listing labels and
 * putting a label on a task or taking it off need any membership. Only
 * creation checks that the name is free in the workspace, and putting a label
 * on a task does not check that both belong to the same workspace.
 */
module LabelService {
  import opened Common
  import opened Members
  import opened Tasks
  import opened Entities
  import opened StoreState

  /** The workspace of a task, through its project. */
  function TaskWorkspace(tasks: map<TaskId, Task>, projects: map<ProjectId, Project>, t: TaskId): WorkspaceId
  {
    if t in tasks && tasks[t].project in projects then projects[tasks[t].project].workspace else 0
  }

  /** findByWorkspaceIdAndName found a row: the name is taken in the workspace. */
  predicate NameTaken(labels: map<LabelId, Label>, ws: WorkspaceId, name: string)
  {
    exists k :: k in labels && labels[k].workspace == ws && labels[k].name == name
  }

  /** No two labels of a workspace share a name. */
  predicate UniqueNames(labels: map<LabelId, Label>)
  {
    forall a, b :: (a in labels && b in labels && labels[a].workspace == labels[b].workspace
                    && labels[a].name == labels[b].name) ==> a == b
  }

  /** The checks of createLabel, in source order. */
  function CreateCheck(members: map<MemberId, WorkspaceMember>, labels: map<LabelId, Label>,
                       workspaces: map<WorkspaceId, Workspace>, userId: UserId, ws: WorkspaceId, name: string)
    : (r: Option<ErrorCode>)
    requires UniquePairs(members)
    ensures var g := Guard(members, ws, userId, ManageProjects, WorkspaceAccessDenied, AccessDenied);
      (g.Some? ==> r == g)
      && (g.None? && NameTaken(labels, ws, name) ==> r == Some(DuplicateLabelName))
      && (g.None? && !NameTaken(labels, ws, name) && ws !in workspaces ==> r == Some(WorkspaceNotFound))
    ensures r.None? <==> (
      Guard(members, ws, userId, ManageProjects, WorkspaceAccessDenied, AccessDenied).None?
      && !NameTaken(labels, ws, name) && ws in workspaces)
  {
    var g := Guard(members, ws, userId, ManageProjects, WorkspaceAccessDenied, AccessDenied);
    if g.Some? then g
    else if NameTaken(labels, ws, name) then Some(DuplicateLabelName)
    else if ws !in workspaces then Some(WorkspaceNotFound)
    else None
  }

  /** createLabel: a new label of the workspace under a fresh id. */
  method CreateLabel(db: Store, userId: UserId, ws: WorkspaceId, name: string, color: string) returns (r: Result<Label>)
    requires db.Valid()
    modifies db`labels, db`nextId
    ensures db.Valid()
    ensures var c := CreateCheck(db.members, old(db.labels), db.workspaces, userId, ws, name);
      (c.Some? ==> r == Err(c.value) && db.labels == old(db.labels))
      && (c.None? ==> r.Ok? && r.value == Label(r.value.id, name, color, ws) && r.value.id !in old(db.labels)
                      && db.labels == old(db.labels)[r.value.id := r.value])
  {
    var c := CreateCheck(db.members, db.labels, db.workspaces, userId, ws, name);
    if c.Some? { return Err(c.value); }
    var id := db.NewId();
    var lab := Label(id, name, color, ws);
    db.labels := db.labels[id := lab];
    r := Ok(lab);
  }

  /** Creation keeps the names of each workspace's labels distinct. */
  lemma CreateKeepsNamesUnique(labels: map<LabelId, Label>, l: Label)
    requires UniqueNames(labels) && l.id !in labels && !NameTaken(labels, l.workspace, l.name)
    ensures UniqueNames(labels[l.id := l])
  {
  }

  /**
   * Renaming does not look at the other labels, so it can give two labels of
   * one workspace the same name; after that, creating that name finds it
   * taken.
   */
  lemma RenameCanDuplicate()
    ensures var labels := map[1 := Label(1, "bug", "red", 5), 2 := Label(2, "feature", "blue", 5)];
      UniqueNames(labels) && !UniqueNames(labels[2 := labels[2].Update("bug", "blue")])
  {
    var labels := map[1 := Label(1, "bug", "red", 5), 2 := Label(2, "feature", "blue", 5)];
    var after := labels[2 := labels[2].Update("bug", "blue")];
    assert after[1].name == after[2].name && after[1].workspace == after[2].workspace;
  }

  /** getLabels: for a member of the workspace, exactly its labels. */
  method GetLabels(db: Store, userId: UserId, ws: WorkspaceId) returns (r: Result<seq<Label>>)
    requires db.Valid()
    ensures var g := Guard(db.members, ws, userId, AnyRole, WorkspaceAccessDenied, WorkspaceAccessDenied);
      (g.Some? ==> r == Err(g.value)) && (g.None? ==> r.Ok?)
    ensures r.Ok? ==> forall l :: l in r.value <==> l in db.labels.Values && l.workspace == ws
    ensures r.Ok? ==> forall i, j :: 0 <= i < j < |r.value| ==> r.value[i].id != r.value[j].id
  {
    var g := Guard(db.members, ws, userId, AnyRole, WorkspaceAccessDenied, WorkspaceAccessDenied);
    if g.Some? { return Err(g.value); }
    var keys := KeysInOrder(db.labels, (l: Label) => l.workspace == ws, db.nextId, false);
    var rows := RowsAt(db.labels, keys);
    assert forall l :: l in db.labels.Values && l.workspace == ws ==> l in rows by {
      forall l | l in db.labels.Values && l.workspace == ws ensures l in rows {
        var k :| k in db.labels && db.labels[k] == l;
        var i :| 0 <= i < |keys| && keys[i] == k;
        assert rows[i] == l;
      }
    }
    r := Ok(rows);
  }

  /** The checks of updateLabel and deleteLabel: the label exists, and the caller may manage projects in its workspace. */
  function LabelCheck(labels: map<LabelId, Label>, members: map<MemberId, WorkspaceMember>, userId: UserId, labelId: LabelId)
    : (r: Option<ErrorCode>)
    requires UniquePairs(members)
    ensures labelId !in labels ==> r == Some(LabelNotFound)
    ensures labelId in labels ==> r == Guard(members, labels[labelId].workspace, userId, ManageProjects, WorkspaceAccessDenied, AccessDenied)
  {
    if labelId !in labels then Some(LabelNotFound)
    else Guard(members, labels[labelId].workspace, userId, ManageProjects, WorkspaceAccessDenied, AccessDenied)
  }

  /** updateLabel: name and color are replaced; the workspace stays. */
  method UpdateLabel(db: Store, userId: UserId, labelId: LabelId, name: string, color: string) returns (r: Result<Label>)
    requires db.Valid()
    modifies db`labels
    ensures db.Valid()
    ensures var c := LabelCheck(old(db.labels), db.members, userId, labelId);
      (c.Some? ==> r == Err(c.value) && db.labels == old(db.labels))
      && (c.None? ==> labelId in old(db.labels) && r == Ok(old(db.labels)[labelId].Update(name, color))
                      && db.labels == old(db.labels)[labelId := r.value])
  {
    var c := LabelCheck(db.labels, db.members, userId, labelId);
    if c.Some? { return Err(c.value); }
    var lab := db.labels[labelId].Update(name, color);
    db.labels := db.labels[labelId := lab];
    r := Ok(lab);
  }

  /** deleteLabel: the label row goes; tasks that carry it are not touched. */
  method DeleteLabel(db: Store, userId: UserId, labelId: LabelId) returns (r: Option<ErrorCode>)
    requires db.Valid()
    modifies db`labels
    ensures db.Valid()
    ensures r == LabelCheck(old(db.labels), db.members, userId, labelId)
    ensures r.Some? ==> db.labels == old(db.labels)
    ensures r.None? ==> db.labels == Without(old(db.labels), {labelId})
  {
    r := LabelCheck(db.labels, db.members, userId, labelId);
    if r.Some? { return; }
    db.labels := Without(db.labels, {labelId});
  }

  /**
   * The checks of addLabelToTask and removeLabelFromTask: the task exists,
   * the label exists, and the caller is a member of the task's workspace.
   */
  function TaskLabelCheck(tasks: map<TaskId, Task>, projects: map<ProjectId, Project>, labels: map<LabelId, Label>,
                          members: map<MemberId, WorkspaceMember>, userId: UserId, taskId: TaskId, labelId: LabelId)
    : (r: Option<ErrorCode>)
    requires UniquePairs(members)
    ensures taskId !in tasks ==> r == Some(TaskNotFound)
    ensures taskId in tasks && labelId !in labels ==> r == Some(LabelNotFound)
    ensures r.None? <==> (
      taskId in tasks && labelId in labels
      && exists k :: k in members && IsMembership(members[k], TaskWorkspace(tasks, projects, taskId), userId))
    ensures r.Some? ==> r.value in {TaskNotFound, LabelNotFound, WorkspaceAccessDenied}
  {
    if taskId !in tasks then Some(TaskNotFound)
    else if labelId !in labels then Some(LabelNotFound)
    else Guard(members, TaskWorkspace(tasks, projects, taskId), userId, AnyRole, WorkspaceAccessDenied, WorkspaceAccessDenied)
  }

  /** task.addLabel: the label joins the task's label set. */
  function AddLabel(t: Task, l: LabelId): (r: Task)
    ensures r.labels == t.labels + {l} && r.(labels := t.labels) == t
  {
    t.(labels := t.labels + {l})
  }

  /** task.removeLabel: the label leaves the task's label set. */
  function RemoveLabel(t: Task, l: LabelId): (r: Task)
    ensures r.labels == t.labels - {l} && r.(labels := t.labels) == t
  {
    t.(labels := t.labels - {l})
  }

  /** Adding twice is adding once, and removing undoes an add of a label the task did not carry. */
  lemma LabelSetLaws(t: Task, l: LabelId)
    ensures AddLabel(AddLabel(t, l), l) == AddLabel(t, l)
    ensures l !in t.labels ==> RemoveLabel(AddLabel(t, l), l) == t
    ensures l in AddLabel(t, l).labels && l !in RemoveLabel(t, l).labels
  {
    if l !in t.labels {
      assert (t.labels + {l}) - {l} == t.labels;
    }
  }

  /** addLabelToTask: only the task's label set changes. */
  method AddLabelToTask(db: Store, userId: UserId, taskId: TaskId, labelId: LabelId) returns (r: Option<ErrorCode>)
    requires db.Valid()
    modifies db`tasks
    ensures db.Valid()
    ensures r == TaskLabelCheck(old(db.tasks), db.projects, db.labels, db.members, userId, taskId, labelId)
    ensures r.Some? ==> db.tasks == old(db.tasks)
    ensures r.None? ==> db.tasks == old(db.tasks)[taskId := AddLabel(old(db.tasks)[taskId], labelId)]
  {
    r := TaskLabelCheck(db.tasks, db.projects, db.labels, db.members, userId, taskId, labelId);
    if r.Some? { return; }
    db.PutTask(AddLabel(db.tasks[taskId], labelId));
  }

  /** removeLabelFromTask: only the task's label set changes. */
  method RemoveLabelFromTask(db: Store, userId: UserId, taskId: TaskId, labelId: LabelId) returns (r: Option<ErrorCode>)
    requires db.Valid()
    modifies db`tasks
    ensures db.Valid()
    ensures r == TaskLabelCheck(old(db.tasks), db.projects, db.labels, db.members, userId, taskId, labelId)
    ensures r.Some? ==> db.tasks == old(db.tasks)
    ensures r.None? ==> db.tasks == old(db.tasks)[taskId := RemoveLabel(old(db.tasks)[taskId], labelId)]
  {
    r := TaskLabelCheck(db.tasks, db.projects, db.labels, db.members, userId, taskId, labelId);
    if r.Some? { return; }
    db.PutTask(RemoveLabel(db.tasks[taskId], labelId));
  }

  /**
   * A member of the task's workspace may put on it a label of another
   * workspace, one where the member has no membership at all.
   */
  lemma ForeignLabelAccepted(tasks: map<TaskId, Task>, projects: map<ProjectId, Project>, labels: map<LabelId, Label>,
                             members: map<MemberId, WorkspaceMember>, userId: UserId, taskId: TaskId, labelId: LabelId,
                             k: MemberId)
    requires UniquePairs(members) && taskId in tasks && labelId in labels && k in members
    requires IsMembership(members[k], TaskWorkspace(tasks, projects, taskId), userId)
    ensures TaskLabelCheck(tasks, projects, labels, members, userId, taskId, labelId).None?
  {
  }
}
