/**
 * Comment use cases. Creating and listing need a membership in the task's
 * workspace, but a missing one is reported as WORKSPACE_NOT_FOUND. Only the
 * author may edit a comment, with no membership check at all; the author or a
 * member who may manage members may delete one. A new comment is logged with
 * a 50-character preview, its task's assignee is notified, and its mentions
 * are processed.
 */
module CommentService {
  import opened Common
  import opened Members
  import opened Tasks
  import opened Entities
  import Activities
  import opened StoreState
  import opened JavaStrings
  import NotificationService
  import ActivityLogService
  import MentionService

  /** The workspace of a task, through its project. */
  function TaskWorkspace(tasks: map<TaskId, Task>, projects: map<ProjectId, Project>, t: TaskId): WorkspaceId
  {
    if t in tasks && tasks[t].project in projects then projects[tasks[t].project].workspace else 0
  }

  /** The activity detail of a new comment: "댓글: " and a preview of at most 50 characters. */
  function CommentDetail(content: string): (d: string)
    ensures |d| <= 4 + 50 + 3
    ensures |content| <= 50 ==> d == "댓글: " + content
    ensures |content| > 50 ==> d == "댓글: " + content[..50] + "..."
  {
    "댓글: " + Truncate(content, 50)
  }

  /** The checks of createComment and getComments, in source order. */
  function CreateCheck(tasks: map<TaskId, Task>, projects: map<ProjectId, Project>, members: map<MemberId, WorkspaceMember>,
                       users: map<UserId, User>, userId: UserId, taskId: TaskId, needAuthor: bool): (r: Option<ErrorCode>)
    requires UniquePairs(members)
    ensures taskId !in tasks ==> r == Some(TaskNotFound)
    ensures r.None? <==> taskId in tasks && (needAuthor ==> userId in users)
                         && exists k :: k in members && IsMembership(members[k], TaskWorkspace(tasks, projects, taskId), userId)
    ensures taskId in tasks && FindMember(members, TaskWorkspace(tasks, projects, taskId), userId).None?
            ==> r == Some(WorkspaceNotFound)
  {
    if taskId !in tasks then Some(TaskNotFound)
    else if FindMember(members, TaskWorkspace(tasks, projects, taskId), userId).None? then Some(WorkspaceNotFound)
    else if needAuthor && userId !in users then Some(UserNotFound)
    else None
  }

  /**
   * createComment: the comment is saved under a fresh id, then logged as
   * COMMENT_ADDED with the task's title and the preview, then the assignee, if
   * any, is notified; mention processing changes nothing. A failed check
   * changes nothing.
   */
  method CreateComment(db: Store, userId: UserId, taskId: TaskId, content: string) returns (r: Result<Comment>)
    requires db.Valid()
    modifies db`comments, db`nextId, db`activities, db`notifications
    ensures db.Valid()
    ensures db.pushes == old(db.pushes)
    ensures var c := CreateCheck(db.tasks, db.projects, db.members, db.users, userId, taskId, true);
      (c.Some? ==> r == Err(c.value) && db.comments == old(db.comments) && db.activities == old(db.activities)
                   && db.notifications == old(db.notifications))
      && (c.None? ==> (
        r.Ok? && r.value == Comment(r.value.id, taskId, userId, content) && r.value.id !in old(db.comments)
        && db.comments == old(db.comments)[r.value.id := r.value]
        && db.activities == old(db.activities)
             + [Activities.ActivityLog(Activities.CommentAdded, TaskWorkspace(db.tasks, db.projects, taskId), userId,
                                       "TASK", r.value.id, db.tasks[taskId].title, Some(CommentDetail(content)))]
        && db.notifications == old(db.notifications)
             + (if db.tasks[taskId].assignee.Some?
                then [NotificationService.CommentNotification(db.tasks[taskId], db.users[userId], content)] else [])))
  {
    var c := CreateCheck(db.tasks, db.projects, db.members, db.users, userId, taskId, true);
    if c.Some? { return Err(c.value); }
    var comment := AddComment(db, db.tasks[taskId], TaskWorkspace(db.tasks, db.projects, taskId), db.users[userId], content);
    r := Ok(comment);
  }

  /** The steps of createComment once its checks have passed. */
  method AddComment(db: Store, task: Task, ws: WorkspaceId, author: User, content: string) returns (comment: Comment)
    requires db.Valid() && task.id in db.tasks
    modifies db`comments, db`nextId, db`activities, db`notifications
    ensures db.Valid()
    ensures comment == Comment(comment.id, task.id, author.id, content) && comment.id !in old(db.comments)
    ensures db.comments == old(db.comments)[comment.id := comment]
    ensures db.activities == old(db.activities)
      + [Activities.ActivityLog(Activities.CommentAdded, ws, author.id, "TASK", comment.id, task.title, Some(CommentDetail(content)))]
    ensures db.notifications == old(db.notifications)
      + (if task.assignee.Some? then [NotificationService.CommentNotification(task, author, content)] else [])
  {
    var id := db.NewId();
    comment := Comment(id, task.id, author.id, content);
    db.InsertComment(comment);
    ActivityLogService.LogType(db, ws, author.id, Activities.CommentAdded, "TASK", id, task.title, Some(CommentDetail(content)));
    NotificationService.SendCommentNotification(db, task, author, content);
    MentionService.ProcessMentions(db, content, author, ws);
  }

  /**
   * getComments: for a member of the task's workspace, exactly the task's
   * comments, oldest first (ordered by creation time, which follows the order
   * of their keys).
   */
  method GetComments(db: Store, userId: UserId, taskId: TaskId) returns (r: Result<seq<Comment>>)
    requires db.Valid()
    ensures var c := CreateCheck(db.tasks, db.projects, db.members, db.users, userId, taskId, false);
      (c.Some? ==> r == Err(c.value)) && (c.None? ==> r.Ok?)
    ensures r.Ok? ==> forall x :: x in r.value <==> x in db.comments.Values && x.task == taskId
    ensures r.Ok? ==> forall i, j :: 0 <= i < j < |r.value| ==> r.value[i].id < r.value[j].id
  {
    var c := CreateCheck(db.tasks, db.projects, db.members, db.users, userId, taskId, false);
    if c.Some? { return Err(c.value); }
    var keys := KeysInOrder(db.comments, (x: Comment) => x.task == taskId, db.nextId, false);
    var rows := RowsAt(db.comments, keys);
    assert forall x :: x in db.comments.Values && x.task == taskId ==> x in rows by {
      forall x | x in db.comments.Values && x.task == taskId ensures x in rows {
        var k :| k in db.comments && db.comments[k] == x;
        var i :| 0 <= i < |keys| && keys[i] == k;
        assert rows[i] == x;
      }
    }
    r := Ok(rows);
  }

  /** The check of updateComment: the comment exists and the caller wrote it. */
  function UpdateCheck(comments: map<CommentId, Comment>, userId: UserId, commentId: CommentId): (r: Option<ErrorCode>)
    ensures r.None? <==> commentId in comments && comments[commentId].author == userId
    ensures commentId !in comments ==> r == Some(CommentNotFound)
    ensures commentId in comments && comments[commentId].author != userId ==> r == Some(CommentUpdateDenied)
  {
    if commentId !in comments then Some(CommentNotFound)
    else if comments[commentId].author != userId then Some(CommentUpdateDenied)
    else None
  }

  /** updateComment: the author's comment gets the new content; nothing else changes. */
  method UpdateComment(db: Store, userId: UserId, commentId: CommentId, content: string) returns (r: Result<Comment>)
    requires db.Valid()
    modifies db`comments
    ensures db.Valid()
    ensures var c := UpdateCheck(old(db.comments), userId, commentId);
      (c.Some? ==> r == Err(c.value) && db.comments == old(db.comments))
      && (c.None? ==> r == Ok(old(db.comments)[commentId].(content := content))
                      && db.comments == old(db.comments)[commentId := r.value])
  {
    var c := UpdateCheck(db.comments, userId, commentId);
    if c.Some? { return Err(c.value); }
    var comment := db.comments[commentId].(content := content);
    db.comments := db.comments[commentId := comment];
    r := Ok(comment);
  }

  /**
   * The check of deleteComment: the comment exists (COMMENT_NOT_FOUND), the
   * caller is a member of its workspace (WORKSPACE_NOT_FOUND), and is its
   * author or may manage members (COMMENT_DELETE_DENIED).
   */
  function DeleteCheck(comments: map<CommentId, Comment>, tasks: map<TaskId, Task>, projects: map<ProjectId, Project>,
                       members: map<MemberId, WorkspaceMember>, userId: UserId, commentId: CommentId): (r: Option<ErrorCode>)
    requires UniquePairs(members)
    ensures commentId !in comments ==> r == Some(CommentNotFound)
    ensures r.None? <==> (
      commentId in comments
      && exists k :: k in members && IsMembership(members[k], TaskWorkspace(tasks, projects, comments[commentId].task), userId)
                     && (comments[commentId].author == userId || members[k].CanManageMembers()))
  {
    if commentId !in comments then Some(CommentNotFound)
    else
      match MemberOrThrow(members, TaskWorkspace(tasks, projects, comments[commentId].task), userId, WorkspaceNotFound)
        case Err(e) => Some(e)
        case Ok(m) =>
          if comments[commentId].author != userId && !m.CanManageMembers() then Some(CommentDeleteDenied) else None
  }

  /** deleteComment: the comment goes; nothing else changes. */
  method DeleteComment(db: Store, userId: UserId, commentId: CommentId) returns (r: Option<ErrorCode>)
    requires db.Valid()
    modifies db`comments
    ensures db.Valid()
    ensures r == DeleteCheck(old(db.comments), db.tasks, db.projects, db.members, userId, commentId)
    ensures r.Some? ==> db.comments == old(db.comments)
    ensures r.None? ==> db.comments == Without(old(db.comments), {commentId})
  {
    r := DeleteCheck(db.comments, db.tasks, db.projects, db.members, userId, commentId);
    if r.Some? { return; }
    db.comments := Without(db.comments, {commentId});
  }

  /**
   * Who may delete a comment: its author while a member, and an owner or admin
   * of the workspace; a plain member or viewer may not delete someone else's.
   */
  lemma DeleteRights(comments: map<CommentId, Comment>, tasks: map<TaskId, Task>, projects: map<ProjectId, Project>,
                     members: map<MemberId, WorkspaceMember>, userId: UserId, commentId: CommentId, k: MemberId)
    requires UniquePairs(members) && commentId in comments && k in members
    requires IsMembership(members[k], TaskWorkspace(tasks, projects, comments[commentId].task), userId)
    ensures comments[commentId].author == userId ==> DeleteCheck(comments, tasks, projects, members, userId, commentId).None?
    ensures members[k].role in {Owner, Admin} ==> DeleteCheck(comments, tasks, projects, members, userId, commentId).None?
    ensures comments[commentId].author != userId && members[k].role in {Member, Viewer}
            ==> DeleteCheck(comments, tasks, projects, members, userId, commentId) == Some(CommentDeleteDenied)
  {
    var ws := TaskWorkspace(tasks, projects, comments[commentId].task);
    FindsItsOwnPair(members, k);
    assert FindMember(members, ws, userId) == Some(k);
  }

  /** An author who has left the workspace can still edit the comment, but no longer delete it. */
  lemma FormerMemberEditsOnly(comments: map<CommentId, Comment>, tasks: map<TaskId, Task>, projects: map<ProjectId, Project>,
                              members: map<MemberId, WorkspaceMember>, userId: UserId, commentId: CommentId)
    requires UniquePairs(members) && commentId in comments && comments[commentId].author == userId
    requires FindMember(members, TaskWorkspace(tasks, projects, comments[commentId].task), userId).None?
    ensures UpdateCheck(comments, userId, commentId).None?
    ensures DeleteCheck(comments, tasks, projects, members, userId, commentId) == Some(WorkspaceNotFound)
  {
  }
}
