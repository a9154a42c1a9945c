/**
 * The notifications the services send. A notification row is written in the
 * caller's transaction; the assigned one is also pushed over the WebSocket
 * channel, whose failure is swallowed, so the row stays whether or not the
 * push arrives. The status-changed one never sets its NOT NULL message, so its
 * save is refused before the push is reached.
 */
module NotificationService {
  import opened Common
  import opened Tasks
  import opened Entities
  import opened Notifications
  import opened StoreState
  import opened JavaStrings
  import NotificationRepository

  /**
   * sendRealTimeNotification: the push is attempted over the channel; a
   * failure is caught and only logged, so the caller goes on and the
   * notification row is not touched either way.
   */
  method Push(db: Store, n: Notification)
    requires db.Valid()
    modifies db`pushes
    ensures db.Valid()
    ensures db.pushes == old(db.pushes) + [n]
  {
    db.pushes := db.pushes + [n];
  }

  /**
   * save, then sendRealTimeNotification. With IDENTITY keys the save inserts
   * at once, so a row whose NOT NULL message is missing is refused there, the
   * exception leaves the caller and the push is never reached.
   */
  method SaveAndPush(db: Store, n: Notification) returns (r: Result<()>)
    requires db.Valid()
    modifies db`notifications, db`pushes
    ensures db.Valid()
    ensures r.Ok? <==> n.NotNullColumnsSet()
    ensures r.Err? ==> r.error == DataIntegrityViolation && db.notifications == old(db.notifications) && db.pushes == old(db.pushes)
    ensures r.Ok? ==> db.notifications == old(db.notifications) + [n] && db.pushes == old(db.pushes) + [n]
  {
    if !n.NotNullColumnsSet() {
      return Err(DataIntegrityViolation);
    }
    db.notifications := db.notifications + [n];
    Push(db, n);
    r := Ok(());
  }

  function AssignedNotification(task: Task, assigner: User): (n: Notification)
    requires task.assignee.Some?
    ensures n.kind == TaskAssigned && n.recipient == task.assignee.value && n.sender == Some(assigner.id)
    ensures n.targetType == "TASK" && n.targetId == task.id && !n.isRead && n.NotNullColumnsSet()
  {
    Notification(TaskAssigned, "새 테스크가 배정되었습니다",
      Some(assigner.name + "님이 '" + task.title + "' 테스크를 배정했습니다."),
      task.assignee.value, Some(assigner.id), "TASK", task.id, false)
  }

  /**
   * sendTaskAssignedNotification: nothing for an unassigned task; otherwise one
   * row for the assignee (saving the same entity twice writes one row) and a push.
   */
  method SendTaskAssignedNotification(db: Store, task: Task, assigner: User)
    requires db.Valid()
    modifies db`notifications, db`pushes
    ensures db.Valid()
    ensures task.assignee.None? ==> db.notifications == old(db.notifications) && db.pushes == old(db.pushes)
    ensures task.assignee.Some? ==>
      db.notifications == old(db.notifications) + [AssignedNotification(task, assigner)]
      && db.pushes == old(db.pushes) + [AssignedNotification(task, assigner)]
  {
    if task.assignee.None? { return; }
    var saved := SaveAndPush(db, AssignedNotification(task, assigner));
  }

  /** The status-changed notification as the builder call writes it: the message is never set. */
  function StatusChangedNotification(task: Task, changer: User, newStatus: string): (n: Notification)
    ensures n.kind == TaskStatusChanged && n.recipient == task.createdBy && n.sender == Some(changer.id)
    ensures n.message == None && n.targetType == "TASK" && n.targetId == task.id && !n.isRead
  {
    Notification(TaskStatusChanged,
      changer.name + "님이 '" + task.title + "' 상태를 " + newStatus + "로 변경했습니다.",
      None, task.createdBy, Some(changer.id), "TASK", task.id, false)
  }

  /**
   * sendTaskStatusChangedNotification as written: nothing when the creator
   * made the change; otherwise the save of the message-less row is refused,
   * so no row is written, nothing is pushed and the caller gets the error.
   * Whether the status actually differs is not looked at.
   */
  method SendTaskStatusChangedNotification(db: Store, task: Task, changer: User, oldStatus: string, newStatus: string)
    returns (r: Result<()>)
    requires db.Valid()
    modifies db`notifications, db`pushes
    ensures db.Valid()
    ensures r.Ok? <==> task.createdBy == changer.id
    ensures r.Err? ==> r.error == DataIntegrityViolation
    ensures db.notifications == old(db.notifications) && db.pushes == old(db.pushes)
  {
    r := Ok(());
    if task.createdBy == changer.id { return; }
    r := SaveAndPush(db, StatusChangedNotification(task, changer, newStatus));
  }

  /**
   * The status-changed notification with a message, as the other builders
   * have one: the sentence of the title is also the message.
   */
  function StatusChangedNotificationIntended(task: Task, changer: User, newStatus: string): (n: Notification)
    ensures n.NotNullColumnsSet() && n.message == Some(n.title)
    ensures n.(message := None) == StatusChangedNotification(task, changer, newStatus)
  {
    var n := StatusChangedNotification(task, changer, newStatus);
    n.(message := Some(n.title))
  }

  /** sendTaskStatusChangedNotification with the message set: the creator, if someone else, gets a row and a push. */
  method SendTaskStatusChangedNotificationIntended(db: Store, task: Task, changer: User, oldStatus: string, newStatus: string)
    returns (r: Result<()>)
    requires db.Valid()
    modifies db`notifications, db`pushes
    ensures db.Valid()
    ensures r.Ok?
    ensures task.createdBy == changer.id ==> db.notifications == old(db.notifications) && db.pushes == old(db.pushes)
    ensures task.createdBy != changer.id ==>
      db.notifications == old(db.notifications) + [StatusChangedNotificationIntended(task, changer, newStatus)]
      && db.pushes == old(db.pushes) + [StatusChangedNotificationIntended(task, changer, newStatus)]
  {
    r := Ok(());
    if task.createdBy == changer.id { return; }
    r := SaveAndPush(db, StatusChangedNotificationIntended(task, changer, newStatus));
  }

  /** The comment preview: at most 30 characters of the comment, then "...". */
  function CommentNotification(task: Task, commenter: User, content: string): (n: Notification)
    requires task.assignee.Some?
    ensures n.kind == CommentAdded && n.recipient == task.assignee.value && n.sender == Some(commenter.id)
    ensures n.targetType == "TASK" && n.targetId == task.id && !n.isRead
    ensures n.message == Some(commenter.name + "님이 '" + task.title + "'에 댓글을 남겼습니다: " + Truncate(content, 30))
  {
    Notification(CommentAdded, "새 댓글이 등록되었습니다",
      Some(commenter.name + "님이 '" + task.title + "'에 댓글을 남겼습니다: " + Truncate(content, 30)),
      task.assignee.value, Some(commenter.id), "TASK", task.id, false)
  }

  /**
   * sendCommentNotification: the assignee is told, even when the assignee wrote
   * the comment; there is no push.
   */
  method SendCommentNotification(db: Store, task: Task, commenter: User, content: string)
    requires db.Valid()
    modifies db`notifications
    ensures db.Valid()
    ensures task.assignee.None? ==> db.notifications == old(db.notifications)
    ensures task.assignee.Some? ==> db.notifications == old(db.notifications) + [CommentNotification(task, commenter, content)]
  {
    if task.assignee.None? { return; }
    db.notifications := db.notifications + [CommentNotification(task, commenter, content)];
  }

  function InvitedNotification(invitee: User, inviter: User, workspaceName: string, ws: WorkspaceId): (n: Notification)
    ensures n.kind == MemberInvited && n.recipient == invitee.id && n.sender == Some(inviter.id)
    ensures n.targetType == "WORKSPACE" && n.targetId == ws && !n.isRead
  {
    Notification(MemberInvited, "워크스페이스에 초대되었습니다",
      Some(inviter.name + "님이 '" + workspaceName + "' 워크스페이스에 초대했습니다."),
      invitee.id, Some(inviter.id), "WORKSPACE", ws, false)
  }

  /** sendMemberInvitedNotification: one row for the invitee, no push. */
  method SendMemberInvitedNotification(db: Store, invitee: User, inviter: User, workspaceName: string, ws: WorkspaceId)
    requires db.Valid()
    modifies db`notifications
    ensures db.Valid()
    ensures db.notifications == old(db.notifications) + [InvitedNotification(invitee, inviter, workspaceName, ws)]
  {
    db.notifications := db.notifications + [InvitedNotification(invitee, inviter, workspaceName, ws)];
  }

  /**
   * markAsRead: a missing notification and someone else's are refused alike;
   * otherwise exactly that row is marked read.
   */
  method MarkAsRead(db: Store, user: UserId, id: nat) returns (r: Result<()>)
    requires db.Valid()
    modifies db`notifications
    ensures db.Valid()
    ensures r.Err? <==> id >= |old(db.notifications)| || old(db.notifications)[id].recipient != user
    ensures r.Err? ==> r.error == NotificationAccessDenied && db.notifications == old(db.notifications)
    ensures r.Ok? ==> db.notifications == old(db.notifications)[id := old(db.notifications)[id].MarkAsRead()]
  {
    if id >= |db.notifications| || db.notifications[id].recipient != user {
      return Err(NotificationAccessDenied);
    }
    db.notifications := db.notifications[id := db.notifications[id].MarkAsRead()];
    r := Ok(());
  }

  /** markAllAsRead: the bulk update, returning how many rows it changed. */
  method MarkAllAsRead(db: Store, user: UserId) returns (count: nat)
    requires db.Valid()
    modifies db`notifications
    ensures db.Valid()
    ensures db.notifications == NotificationRepository.MarkAllAsRead(old(db.notifications), user)
    ensures count == NotificationRepository.CountUnread(old(db.notifications), user)
    ensures NotificationRepository.CountUnread(db.notifications, user) == 0
  {
    count := NotificationRepository.CountUnread(db.notifications, user);
    NotificationRepository.MarkAllAsReadEffect(db.notifications, user);
    db.notifications := NotificationRepository.MarkAllAsRead(db.notifications, user);
  }
}
