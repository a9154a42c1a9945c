/**
 * The persistence context the services share: one table per repository, each a
 * map from identifier to row (or an append-only sequence for the logs), and the
 * identifier generator. Valid() collects the database constraints the services
 * rely on: identities, foreign keys, the unique (workspace, user) pair and
 * unique e-mail, NOT NULL columns and consistent soft-delete columns.
 */
module StoreState {
  import opened Common
  import opened BaseEntity
  import opened Members
  import opened Tasks
  import opened ChecklistItems
  import opened Entities
  import opened LoginAttempts
  import opened PasswordResetTokens
  import opened Notifications
  import opened Activities

  predicate UniqueEmails(users: map<UserId, User>)
  {
    forall a, b :: a in users && b in users && users[a].email == users[b].email ==> a == b
  }

  /** findByEmail: the one user with the address, if any. */
  function UserByEmail(users: map<UserId, User>, email: string): (r: Option<UserId>)
    requires UniqueEmails(users)
    ensures r.Some? ==> r.value in users && users[r.value].email == email
    ensures r.None? <==> forall k :: k in users ==> users[k].email != email
  {
    if exists k :: k in users && users[k].email == email then
      var k :| k in users && users[k].email == email;
      Some(k)
    else
      None
  }

  predicate UsersOk(users: map<UserId, User>, next: nat)
  {
    (forall k :: k in users ==> users[k].id == k && k < next) && UniqueEmails(users)
  }

  predicate WorkspacesOk(workspaces: map<WorkspaceId, Workspace>, next: nat)
  {
    forall k :: k in workspaces ==> workspaces[k].id == k && k < next && workspaces[k].life.Consistent()
  }

  predicate MembersOk(members: map<MemberId, WorkspaceMember>, next: nat)
  {
    (forall k :: k in members ==> members[k].id == k && k < next && members[k].workspace < next)
    && UniquePairs(members)
  }

  predicate ProjectsOk(projects: map<ProjectId, Project>, next: nat)
  {
    forall k :: k in projects ==> projects[k].id == k && k < next && projects[k].life.Consistent()
  }

  predicate TasksOk(tasks: map<TaskId, Task>, projects: map<ProjectId, Project>, next: nat)
  {
    forall k :: k in tasks ==>
      tasks[k].id == k && k < next && tasks[k].project in projects
      && tasks[k].life.Consistent() && tasks[k].NotNullColumnsSet()
  }

  predicate CommentsOk(comments: map<CommentId, Comment>, tasks: map<TaskId, Task>, next: nat)
  {
    forall k :: k in comments ==> comments[k].id == k && k < next && comments[k].task in tasks
  }

  predicate ItemsOk(items: map<ItemId, ChecklistItem>, tasks: map<TaskId, Task>, next: nat)
  {
    forall k :: k in items ==> items[k].id == k && k < next && items[k].task in tasks
  }

  predicate FilesOk(files: map<FileId, FileAttachment>, tasks: map<TaskId, Task>, next: nat)
  {
    forall k :: k in files ==> files[k].id == k && k < next && files[k].task in tasks && files[k].NotNullColumnsSet()
  }

  predicate LabelsOk(labels: map<LabelId, Label>, next: nat)
  {
    forall k :: k in labels ==> labels[k].id == k && k < next
  }

  /** Every refresh token and reset token belongs to an existing user. */
  predicate TokensOk(refreshTokens: map<string, RefreshToken>, resetTokens: map<string, PasswordResetToken>,
                     users: map<UserId, User>)
  {
    (forall s :: s in refreshTokens ==> refreshTokens[s].user in users)
    && (forall s :: s in resetTokens ==> resetTokens[s].user in users && resetTokens[s].token == s)
  }

  /** The identifiers of a list of rows. */
  function IdsOf(rows: seq<Task>): (r: set<TaskId>)
    ensures forall i :: 0 <= i < |rows| ==> rows[i].id in r
    ensures forall k :: k in r ==> exists i :: 0 <= i < |rows| && rows[i].id == k
  {
    if rows == [] then {} else IdsOf(rows[..|rows| - 1]) + {rows[|rows| - 1].id}
  }

  /** rows lists every task of the table exactly once, in some order. */
  predicate Enumerates(rows: seq<Task>, tasks: map<TaskId, Task>)
  {
    (forall i :: 0 <= i < |rows| ==> rows[i].id in tasks && tasks[rows[i].id] == rows[i])
    && IdsOf(rows) == tasks.Keys
    && (forall i, j :: 0 <= i < j < |rows| ==> rows[i].id != rows[j].id)
  }

  function ProjectIdsOf(rows: seq<Project>): (r: set<ProjectId>)
    ensures forall i :: 0 <= i < |rows| ==> rows[i].id in r
    ensures forall k :: k in r ==> exists i :: 0 <= i < |rows| && rows[i].id == k
  {
    if rows == [] then {} else ProjectIdsOf(rows[..|rows| - 1]) + {rows[|rows| - 1].id}
  }

  /** rows lists every project of the table exactly once, in some order. */
  predicate EnumeratesProjects(rows: seq<Project>, projects: map<ProjectId, Project>)
  {
    (forall i :: 0 <= i < |rows| ==> rows[i].id in projects && projects[rows[i].id] == rows[i])
    && ProjectIdsOf(rows) == projects.Keys
    && (forall i, j :: 0 <= i < j < |rows| ==> rows[i].id != rows[j].id)
  }

  /** The tasks of the given projects: those the cascade on Project.tasks takes with them. */
  function TasksOf(tasks: map<TaskId, Task>, doomed: set<ProjectId>): (r: set<TaskId>)
    ensures forall k :: k in r <==> k in tasks && tasks[k].project in doomed
  {
    set k | k in tasks && tasks[k].project in doomed
  }

  /** The rows that stay when the doomed keys go. */
  function Without<K, V>(m: map<K, V>, doomed: set<K>): (r: map<K, V>)
    ensures r.Keys == m.Keys - doomed
    ensures forall k :: k in r ==> r[k] == m[k]
  {
    map k | k in m && k !in doomed :: m[k]
  }

  /**
   * A comment, a checklist item or an attachment still references one of the
   * doomed tasks. Their task_id columns are NOT NULL foreign keys and no
   * mapping deletes them with the task, so the database refuses the delete.
   */
  predicate TasksReferenced(doomed: set<TaskId>, comments: map<CommentId, Comment>,
                            checklist: map<ItemId, ChecklistItem>, files: map<FileId, FileAttachment>)
  {
    (exists k :: k in comments && comments[k].task in doomed)
    || (exists k :: k in checklist && checklist[k].task in doomed)
    || (exists k :: k in files && files[k].task in doomed)
  }

  /**
   * Reads the keys of a table whose rows keep selects, in ascending key order
   * or, when newestFirst holds, in descending key order. Keys come from the
   * identity generator, so their order is the order the rows were created in.
   */
  method KeysInOrder<V>(table: map<nat, V>, keep: V -> bool, bound: nat, newestFirst: bool) returns (keys: seq<nat>)
    requires forall k :: k in table ==> k < bound
    ensures forall k :: k in keys <==> k in table && keep(table[k])
    ensures forall i, j :: 0 <= i < j < |keys| ==> if newestFirst then keys[i] > keys[j] else keys[i] < keys[j]
  {
    keys := [];
    var k := 0;
    while k < bound
      invariant k <= bound
      invariant forall x :: x in keys <==> x < k && x in table && keep(table[x])
      invariant forall i :: 0 <= i < |keys| ==> keys[i] < k
      invariant forall i, j :: 0 <= i < j < |keys| ==> if newestFirst then keys[i] > keys[j] else keys[i] < keys[j]
    {
      if k in table && keep(table[k]) {
        keys := if newestFirst then [k] + keys else keys + [k];
      }
      k := k + 1;
    }
  }

  /** The rows under the given keys, in the keys' order. */
  function RowsAt<V>(table: map<nat, V>, keys: seq<nat>): (rows: seq<V>)
    requires forall k :: k in keys ==> k in table
    ensures |rows| == |keys|
    ensures forall i :: 0 <= i < |keys| ==> rows[i] == table[keys[i]]
  {
    if keys == [] then [] else [table[keys[0]]] + RowsAt(table, keys[1..])
  }

  class Store {
    var users: map<UserId, User>
    var workspaces: map<WorkspaceId, Workspace>
    var members: map<MemberId, WorkspaceMember>
    var projects: map<ProjectId, Project>
    var tasks: map<TaskId, Task>
    var comments: map<CommentId, Comment>
    var checklist: map<ItemId, ChecklistItem>
    var labels: map<LabelId, Label>
    var files: map<FileId, FileAttachment>
    var activities: seq<ActivityLog>
    var notifications: seq<Notification>
    /**
     * The WebSocket pushes attempted, each carrying its notification to the
     * recipient. A push leaves the process at once: a rollback does not take it
     * back, and whether it arrives is not known to the sender.
     */
    var pushes: seq<Notification>
    var loginAttempts: map<string, LoginAttempt>
    var resetTokens: map<string, PasswordResetToken>
    var refreshTokens: map<string, RefreshToken>
    /** Stored file paths on the upload disk. */
    var disk: set<string>
    var nextId: nat

    ghost predicate Valid()
      reads this`users, this`workspaces, this`members, this`projects, this`tasks
      reads this`comments, this`checklist, this`files, this`labels, this`nextId
      reads this`refreshTokens, this`resetTokens
    {
      UsersOk(users, nextId) && WorkspacesOk(workspaces, nextId) && MembersOk(members, nextId)
      && ProjectsOk(projects, nextId) && TasksOk(tasks, projects, nextId)
      && CommentsOk(comments, tasks, nextId) && ItemsOk(checklist, tasks, nextId)
      && FilesOk(files, tasks, nextId) && LabelsOk(labels, nextId)
      && TokensOk(refreshTokens, resetTokens, users)
    }

    constructor ()
      ensures Valid()
      ensures users == map[] && workspaces == map[] && members == map[] && projects == map[] && tasks == map[]
      ensures comments == map[] && checklist == map[] && labels == map[] && files == map[]
      ensures activities == [] && notifications == [] && pushes == []
      ensures loginAttempts == map[] && resetTokens == map[] && refreshTokens == map[] && disk == {}
    {
      users, workspaces, members, projects, tasks := map[], map[], map[], map[], map[];
      comments, checklist, labels, files := map[], map[], map[], map[];
      activities, notifications, pushes := [], [], [];
      loginAttempts, resetTokens, refreshTokens := map[], map[], map[];
      disk := {};
      nextId := 0;
    }

    /** The identity generator: a key no table has used. */
    method NewId() returns (id: nat)
      requires Valid()
      modifies this`nextId
      ensures Valid()
      ensures id == old(nextId) && nextId == id + 1
      ensures id !in users && id !in workspaces && id !in members && id !in projects && id !in tasks
      ensures id !in comments && id !in checklist && id !in labels && id !in files
      ensures forall k :: k in members ==> members[k].workspace != id
    {
      id := nextId;
      nextId := nextId + 1;
    }

    /** Saves a task row under its own id, as a new row or over the old one. */
    method PutTask(t: Task)
      requires Valid()
      requires t.id < nextId && t.project in projects && t.life.Consistent() && t.NotNullColumnsSet()
      modifies this`tasks
      ensures Valid()
      ensures tasks == old(tasks)[t.id := t]
    {
      tasks := tasks[t.id := t];
    }

    /** The insert of a new workspace row under its fresh key. */
    method InsertWorkspace(w: Workspace)
      requires Valid()
      requires w.id !in workspaces && w.id < nextId && w.life.Consistent()
      modifies this`workspaces
      ensures Valid()
      ensures workspaces == old(workspaces)[w.id := w]
    {
      workspaces := workspaces[w.id := w];
    }

    /** Saves a membership row under its own id, keeping one membership per workspace and user. */
    method PutMember(m: WorkspaceMember)
      requires Valid()
      requires m.id < nextId && m.workspace < nextId && UniquePairs(members[m.id := m])
      modifies this`members
      ensures Valid()
      ensures members == old(members)[m.id := m]
    {
      members := members[m.id := m];
    }

    /** A confirmed reset: the token's user gets the new password and the token is spent. */
    method SpendResetToken(token: string, encodedNew: string)
      requires Valid()
      requires token in resetTokens
      modifies this`users, this`resetTokens
      ensures Valid()
      ensures var u := old(resetTokens)[token].user;
        u in old(users) && users == old(users)[u := old(users)[u].(password := encodedNew)]
      ensures resetTokens == old(resetTokens)[token := old(resetTokens)[token].MarkAsUsed()]
    {
      var t := resetTokens[token];
      users := users[t.user := users[t.user].(password := encodedNew)];
      resetTokens := resetTokens[token := t.MarkAsUsed()];
    }

    /** The insert of a new comment row under its fresh key. */
    method InsertComment(c: Comment)
      requires Valid()
      requires c.id !in comments && c.id < nextId && c.task in tasks
      modifies this`comments
      ensures Valid()
      ensures comments == old(comments)[c.id := c]
    {
      comments := comments[c.id := c];
    }

    /** The insert of a new attachment row under its fresh key. */
    method InsertFile(f: FileAttachment)
      requires Valid()
      requires f.id !in files && f.id < nextId && f.task in tasks && f.NotNullColumnsSet()
      modifies this`files
      ensures Valid()
      ensures files == old(files)[f.id := f]
    {
      files := files[f.id := f];
    }

    /** A rollback of the notification table to what it held when the transaction began. */
    method RollBackNotifications(notifications0: seq<Notification>)
      requires Valid()
      modifies this`notifications
      ensures Valid()
      ensures notifications == notifications0
    {
      notifications := notifications0;
    }

    /** Reads the task table in whatever order the database returns it. */
    method TaskRows() returns (rows: seq<Task>)
      requires Valid()
      ensures Enumerates(rows, tasks)
    {
      rows := [];
      var left := tasks.Keys;
      while left != {}
        invariant left <= tasks.Keys
        invariant forall i :: 0 <= i < |rows| ==> rows[i].id in tasks.Keys - left && tasks[rows[i].id] == rows[i]
        invariant IdsOf(rows) == tasks.Keys - left
        invariant forall i, j :: 0 <= i < j < |rows| ==> rows[i].id != rows[j].id
        decreases left
      {
        var k :| k in left;
        ghost var prev := rows;
        rows := rows + [tasks[k]];
        assert forall i :: 0 <= i < |prev| ==> rows[i] == prev[i];
        assert rows[..|prev|] == prev;
        left := left - {k};
      }
    }

    /** Reads the project table in whatever order the database returns it. */
    method ProjectRows() returns (rows: seq<Project>)
      requires Valid()
      ensures EnumeratesProjects(rows, projects)
    {
      rows := [];
      var left := projects.Keys;
      while left != {}
        invariant left <= projects.Keys
        invariant forall i :: 0 <= i < |rows| ==> rows[i].id in projects.Keys - left && projects[rows[i].id] == rows[i]
        invariant ProjectIdsOf(rows) == projects.Keys - left
        invariant forall i, j :: 0 <= i < j < |rows| ==> rows[i].id != rows[j].id
        decreases left
      {
        var k :| k in left;
        ghost var prev := rows;
        rows := rows + [projects[k]];
        assert rows[..|prev|] == prev;
        left := left - {k};
      }
    }

    /**
     * A hard delete of tasks, which the foreign keys allow only when nothing
     * references them.
     */
    method RemoveTasks(doomed: set<TaskId>)
      requires Valid() && !TasksReferenced(doomed, comments, checklist, files)
      modifies this`tasks
      ensures Valid()
      ensures tasks == Without(old(tasks), doomed)
    {
      tasks := Without(tasks, doomed);
    }

    /**
     * A hard delete of projects with no cascade, which the foreign key of
     * tasks.project_id allows only when no task belongs to them.
     */
    method RemoveProjects(doomed: set<ProjectId>)
      requires Valid() && TasksOf(tasks, doomed) == {}
      modifies this`projects
      ensures Valid()
      ensures projects == Without(old(projects), doomed)
    {
      projects := Without(projects, doomed);
    }

    /**
     * An entity delete of projects: the cascade on Project.tasks deletes every
     * task of theirs first, deleted or not, and the foreign keys on the tasks
     * must allow that.
     */
    method CascadeRemoveProjects(doomed: set<ProjectId>)
      requires Valid() && !TasksReferenced(TasksOf(tasks, doomed), comments, checklist, files)
      modifies this`projects, this`tasks
      ensures Valid()
      ensures tasks == Without(old(tasks), TasksOf(old(tasks), doomed))
      ensures projects == Without(old(projects), doomed)
    {
      RemoveTasks(TasksOf(tasks, doomed));
      RemoveProjects(doomed);
    }
  }
}
