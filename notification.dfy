/** The notification row a user reads in their inbox. */
module Notifications {
  import opened Common

  datatype NotificationType = TaskAssigned | TaskStatusChanged | CommentAdded | MemberInvited | DueDateReminder | Mentioned

  /**
   * A notification. Its identifier is its position in the table, which also
   * stands for its creation order.
   */
  datatype Notification = Notification(
    kind: NotificationType,
    title: string,
    message: Option<string>,
    recipient: UserId,
    sender: Option<UserId>,
    targetType: string,
    targetId: nat,
    isRead: bool)
  {
    /** The message column is declared NOT NULL: a row without one cannot be saved. */
    predicate NotNullColumnsSet() { message.Some? }

    function MarkAsRead(): (n: Notification)
      ensures n.isRead && n.(isRead := isRead) == this
    {
      this.(isRead := true)
    }
  }
}
