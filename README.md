# TeamHub workspace core, modelled in Dafny

TeamHub is a team task tracker. Users own and join workspaces. Workspaces hold projects, projects hold tasks, and tasks carry comments, checklist items, labels and file attachments. This project models the layer that decides who may do what and what each operation changes:

- the four membership roles and the capability checks every service runs;
- the soft-delete lifecycle and the trash (list, restore, delete for good, purge after 30 days);
- the task, project, workspace, comment, checklist, label and file services, down to the error each check raises and the order the checks run in;
- the append-only activity log and the notification rules, including the best-effort real-time push;
- the due-date reminder sweep;
- the login lock-out counter, the password-reset tokens and refresh-token rotation;
- the string helpers: `@mention` scanning, file extensions and the allowed-type list, the bearer-token header and the client address taken from `X-Forwarded-For`;
- the per-client request bucket.

**How the model is organised**

- The database is one `Store` object with one field per table (`StoreState`). Each service is a module of methods that take the store and name, in `modifies`, exactly the tables they may change.
- Entities are values. Each entity mutator is a function that returns the changed row, which the service writes back under the same key.
- A thrown `CustomException` is a `Result`/`Option` error carrying the model's `ErrorCode`. A transaction that throws leaves the store as it was. A WebSocket push is never taken back.
- Clocks are integer parameters: seconds for instants and day numbers for dates.
- These come in as parameters:
  - the password encoder, the JWT provider and the random UUID;
  - the outcome of a disk operation, which the model leaves open (`:|`).
- Repository queries are functions over the table's rows. Each query is specified by what it keeps and how it orders the result.

**Where the code departs from its evident intent**

- `removeMember` refuses every target that is not an OWNER and removes only OWNERs.
- `updateTask` logs `TASK_CREATED`.
- The status-changed notification is built without its NOT NULL message, so a status change by anyone but the task's creator is rolled back (see Findings).
- A task that still has comments, checklist items or files cannot be deleted for good, purged, or removed with its project: the foreign keys refuse it.
- `deleteProject` is a hard delete.
- Permanent delete does not ask whether the item is in the trash.
- No finder filters out soft-deleted rows, including the due-date query of the reminder sweep.
- `updateWorkspace` refuses with `WORKSPACE_DELETE_DENIED`.
- `login` records neither failures nor successes, so the lock comes only from `LoginAttemptService`.
- The comment service reports a missing membership as `WORKSPACE_NOT_FOUND`, and `updateComment` checks no membership at all.
- `reorderItems` does not check which task the listed items belong to, and `deleteItem` does not renumber the rest.
- `updateLabel` does not check name uniqueness again, and `addLabelToTask` accepts a label of another workspace.
- Both searches look the membership up with the user id and the workspace id swapped.

## Model

| member | source | states |
|---|---|---|
| Members.WorkspaceMember.ChangeRole | src/main/java/com/teamhub/domain/workspace/WorkspaceMember.java:34-36 | the role is replaced; id, workspace and user stay |
| Members.WorkspaceMember.CanManageMembers | src/main/java/com/teamhub/domain/workspace/WorkspaceMember.java:38-40 | true exactly for OWNER and ADMIN |
| Members.WorkspaceMember.CanManageProjects | src/main/java/com/teamhub/domain/workspace/WorkspaceMember.java:42-44 | true exactly for OWNER and ADMIN |
| Members.WorkspaceMember.CanEditTasks | src/main/java/com/teamhub/domain/workspace/WorkspaceMember.java:46-48 | true for every role but VIEWER |
| Members.WorkspaceMember.IsOwner | src/main/java/com/teamhub/domain/workspace/WorkspaceMember.java:50-52 | true only for OWNER |
| Members.CapabilitiesMonotone | src/main/java/com/teamhub/domain/workspace/WorkspaceMember.java:38-52 | a more privileged role has every capability a less privileged one has |
| Members.FindMember | src/main/java/com/teamhub/domain/workspace/WorkspaceMember.java:9-11 | under the unique (workspace, user) constraint, the lookup finds the pair's membership or proves there is none |
| Members.MemberOrThrow | src/main/java/com/teamhub/service/TaskService.java:257-260 | findMemberOrThrow succeeds exactly when the pair has a membership, and otherwise fails with the calling service's code |
| Members.Guard | src/main/java/com/teamhub/service/TaskService.java:44-48 | the guard passes exactly when a membership of the pair has the capability; no membership gives the "missing" code, a weaker role the "denied" code |
| Members.GuardMonotone | src/main/java/com/teamhub/domain/workspace/WorkspaceMember.java:38-52 | whether a guard passes depends only on the rank of the caller's role |
| Members.FindsItsOwnPair | src/main/java/com/teamhub/domain/workspace/WorkspaceMember.java:9-11 | looking up a membership's own pair finds that membership |
| BaseEntity.Lifecycle.Delete | src/main/java/com/teamhub/domain/common/BaseEntity.java:32-35 | delete sets isDeleted and stamps deletedAt with now, keeping the flag and the stamp consistent |
| BaseEntity.Lifecycle.Restore | src/main/java/com/teamhub/domain/common/BaseEntity.java:38-41 | restore clears the flag and the stamp |
| BaseEntity.Created | src/main/java/com/teamhub/domain/common/BaseEntity.java:26-29 | a new row is live, with no deletion time |
| BaseEntity.RestoreUndoesDelete | src/main/java/com/teamhub/domain/common/BaseEntity.java:32-41 | restore after delete gives back the live row |
| BaseEntity.RestoreIdempotent | src/main/java/com/teamhub/domain/common/BaseEntity.java:38-41 | restoring a live row changes nothing; restoring twice is restoring once |
| BaseEntity.DeleteAgainRestamps | src/main/java/com/teamhub/domain/common/BaseEntity.java:32-35 | a second delete keeps only the second timestamp |
| Tasks.StatusNamesDistinct | src/main/java/com/teamhub/service/TaskService.java:204 | distinct statuses have distinct names in the activity details |
| TaskService.StatusChangeDetails | src/main/java/com/teamhub/service/TaskService.java:204 | the old status name, the three characters " → ", then the new status name |
| Tasks.Task.UpdateInfo | src/main/java/com/teamhub/domain/project/Task.java:58-63 | title, description, priority and due date are overwritten, absent values included; every other column stays |
| Tasks.Task.ChangeStatus | src/main/java/com/teamhub/domain/project/Task.java:65-67 | only the status changes |
| Tasks.Task.AssignTo | src/main/java/com/teamhub/domain/project/Task.java:69-71 | only the assignee changes |
| Tasks.Task.ChangeOrder | src/main/java/com/teamhub/domain/project/Task.java:73-75 | only the display order changes |
| Tasks.NewTask | src/main/java/com/teamhub/domain/project/Task.java:30-56 | a built task is TODO, MEDIUM, order 0, unassigned, live |
| ChecklistItems.ChecklistItem.Update | src/main/java/com/teamhub/domain/project/ChecklistItem.java:32-34 | only the content changes |
| ChecklistItems.ChecklistItem.ToggleComplete | src/main/java/com/teamhub/domain/project/ChecklistItem.java:36-38 | only the completion flag changes, to its negation |
| ChecklistItems.ChecklistItem.Complete | src/main/java/com/teamhub/domain/project/ChecklistItem.java:40-42 | the flag is set; nothing else changes |
| ChecklistItems.ChecklistItem.Uncomplete | src/main/java/com/teamhub/domain/project/ChecklistItem.java:44-46 | the flag is cleared; nothing else changes |
| ChecklistItems.ChecklistItem.UpdateOrder | src/main/java/com/teamhub/domain/project/ChecklistItem.java:48-50 | only the display order changes |
| ChecklistItems.ToggleLaws | src/main/java/com/teamhub/domain/project/ChecklistItem.java:36-46 | toggling twice is the identity; complete and uncomplete are idempotent; a toggle equals the one of them that flips the flag |
| LoginAttempts.LoginAttempt.IncrementAttempt | src/main/java/com/teamhub/domain/user/LoginAttempt.java:30-33 | the count goes up by one and the last attempt is now; the lock stays |
| LoginAttempts.LoginAttempt.Lock | src/main/java/com/teamhub/domain/user/LoginAttempt.java:35-37 | the lock ends the given number of minutes after now; nothing else changes |
| LoginAttempts.LoginAttempt.Reset | src/main/java/com/teamhub/domain/user/LoginAttempt.java:39-42 | the count is 0 and the lock gone; the last attempt time stays |
| LoginAttempts.LoginAttempt.IsLocked | src/main/java/com/teamhub/domain/user/LoginAttempt.java:44-46 | locked only while a lock end is set and still ahead; never without one or once it has passed |
| LoginAttempts.LockLasts | src/main/java/com/teamhub/domain/user/LoginAttempt.java:35-46 | a lock of m > 0 minutes holds exactly until now + m minutes, exclusive |
| LoginAttempts.ResetUnlocks | src/main/java/com/teamhub/domain/user/LoginAttempt.java:39-46 | after a reset the record is never locked |
| PasswordResetTokens.PasswordResetToken.MarkAsUsed | src/main/java/com/teamhub/domain/user/PasswordResetToken.java:50-52 | only the used flag changes, to true |
| PasswordResetTokens.Create | src/main/java/com/teamhub/domain/user/PasswordResetToken.java:33-40 | a new token is unused and expires the given minutes after now |
| PasswordResetTokens.PasswordResetToken.IsExpired | src/main/java/com/teamhub/domain/user/PasswordResetToken.java:42-44 | not expired up to and including the expiry instant, expired at every later instant |
| PasswordResetTokens.PasswordResetToken.IsValid | src/main/java/com/teamhub/domain/user/PasswordResetToken.java:46-48 | valid exactly when unused and not expired |
| PasswordResetTokens.FreshTokenValidity | src/main/java/com/teamhub/domain/user/PasswordResetToken.java:42-48 | a new token is valid up to and including its expiry instant, and not after |
| PasswordResetTokens.UsedNeverValid | src/main/java/com/teamhub/domain/user/PasswordResetToken.java:46-52 | a used token is never valid |
| Notifications.Notification.MarkAsRead | src/main/java/com/teamhub/domain/notification/Notification.java:47-49 | only the read flag changes, to true |
| Entities.Workspace.UpdateInfo | src/main/java/com/teamhub/domain/workspace/Workspace.java:36-39 | only name and description change |
| Entities.Project.UpdateInfo | src/main/java/com/teamhub/domain/project/Project.java:36-39 | only name and description change |
| Entities.Label.Update | src/main/java/com/teamhub/domain/project/Label.java:30-33 | only name and color change |
| Entities.RefreshToken.IsExpired | src/main/java/com/teamhub/service/AuthService.java:95 | a refresh token is live up to its expiry instant and expired at every later instant |
| Activities.ValueOf | src/main/java/com/teamhub/service/ActivityLogService.java:32 | valueOf finds the constant with the name, or fails exactly when no constant has it |
| Activities.NamesInjective | src/main/java/com/teamhub/enums/activity/ActivityType.java:3-27 | distinct constants have distinct names |
| Activities.ValueOfName | src/main/java/com/teamhub/service/ActivityLogService.java:32 | every constant's name parses back to that constant |
| Common.NewestFirst | src/main/java/com/teamhub/repository/NotificationRepository.java:14-15 | the positions of the selected rows, each once, highest (newest) first |
| JavaStrings.Trim | src/main/java/com/teamhub/config/RateLimitFilter.java:52 | trim removes exactly the leading and trailing characters up to U+0020 |
| JavaStrings.LastIndexOf | src/main/java/com/teamhub/service/FileService.java:182 | the index of the last occurrence, or none exactly when the character does not occur |
| JavaStrings.ToLower | src/main/java/com/teamhub/service/FileService.java:173 | the string with each ASCII capital lowered, length kept |
| JavaStrings.JoinPieces | src/main/java/com/teamhub/config/FileProperties.java:21-23 | splitting at a separator loses nothing: the pieces joined back give the string |
| JavaStrings.PiecesAllEmpty | src/main/java/com/teamhub/config/RateLimitFilter.java:52 | all pieces are empty exactly when the string is made of separators only |
| JavaStrings.Split | src/main/java/com/teamhub/config/RateLimitFilter.java:52 | a string without the separator is one piece; no piece holds the separator; trailing empty pieces are dropped: the result is a prefix of all pieces ending in a non-empty one, and every piece past it is empty |
| JavaStrings.HasText | src/main/java/com/teamhub/security/JwtAuthenticationFilter.java:46 | true exactly for a present string with a character that is not whitespace |
| JavaStrings.SplitHead | src/main/java/com/teamhub/config/RateLimitFilter.java:52 | split gives no element exactly for a string of separators only; otherwise its first element is the text before the first separator |
| JavaStrings.Truncate | src/main/java/com/teamhub/service/CommentService.java:121-124 | a text within the limit is unchanged; a longer one is its first max characters and "..." |
| JavaStrings.DecimalRoundTrip | src/main/java/com/teamhub/service/SchedulerService.java:63 | the decimal digits of a day count read back as that count |
| StoreState.UserByEmail | src/main/java/com/teamhub/service/AuthService.java:66-75 | findByEmail returns the one user with the address, or none exactly when nobody has it |
| StoreState.KeysInOrder | src/main/java/com/teamhub/repository/CommentRepository.java:12 | exactly the keys of the kept rows, in ascending or descending key order, the model's creation order |
| StoreState.Store.RemoveTasks | src/main/java/com/teamhub/service/TrashService.java:119 | deleting unreferenced task rows leaves every other row as it was |
| StoreState.Store.CascadeRemoveProjects | src/main/java/com/teamhub/service/ProjectService.java:99 | the projects and their tasks go; nothing else changes |
| TaskRepository.Insert | src/main/java/com/teamhub/repository/TaskRepository.java:33-52 | inserting into a sorted list keeps it sorted and adds exactly the row |
| TaskRepository.SortBy | src/main/java/com/teamhub/repository/TaskRepository.java:33-52 | ORDER BY gives a sorted permutation of the rows |
| TaskRepository.Select | src/main/java/com/teamhub/repository/TaskRepository.java:33-52 | WHERE keeps exactly the matching rows, none more often than the input has it |
| TaskRepository.SearchTasks | src/main/java/com/teamhub/repository/TaskRepository.java:33-52 | exactly the workspace's tasks that pass every given filter (an absent filter passes all), newest first, no row more often than the table has it |
| TaskRepository.CountByProjectId | src/main/java/com/teamhub/repository/TaskRepository.java:26-27 | the number of the project's tasks, 0 exactly when the project has none |
| TaskRepository.EmptyFilterListsWorkspace | src/main/java/com/teamhub/repository/TaskRepository.java:33-52 | with no filter the search lists every task of the workspace |
| TaskRepository.FindUpcomingTasks | src/main/java/com/teamhub/repository/TaskRepository.java:75-80 | exactly the workspace's open tasks due in [today, endDate], soonest first, no row more often than the table has it |
| TaskRepository.FindTasksDueBetween | src/main/java/com/teamhub/repository/TaskRepository.java:90-95 | exactly the open, assigned tasks due in the inclusive window, in every workspace, deleted or not |
| TaskRepository.FindDeletedByWorkspaceId | src/main/java/com/teamhub/repository/TaskRepository.java:98-102 | exactly the workspace's soft-deleted tasks, latest deletion first, no row more often than the table has it |
| TaskRepository.FindAllByAssigneeId | src/main/java/com/teamhub/repository/TaskRepository.java:23-24 | exactly the user's tasks, by due date, no row more often than the table has it |
| TaskRepository.CountGroupByAssignee | src/main/java/com/teamhub/repository/TaskRepository.java:62-66 | one group exactly per user assigned a task of the workspace, each with the number of that user's tasks in the workspace, so never 0; unassigned tasks are in no group |
| TaskRepository.CountCompletedGroupByAssignee | src/main/java/com/teamhub/repository/TaskRepository.java:68-72 | one group exactly per user assigned a DONE task of the workspace, each with the number of that user's DONE tasks in the workspace, so never 0 |
| TaskRepository.CompletedWithinAssigned | src/main/java/com/teamhub/repository/TaskRepository.java:62-72 | every user with a completed-task count also has an assigned-task count, and the completed count is at most the assigned one |
| TaskRepository.PurgeSet | src/main/java/com/teamhub/repository/TaskRepository.java:109-113 | the purge removes exactly the workspace's tasks soft-deleted more than 30 days before now |
| TaskRepository.PurgeSparesRecent | src/main/java/com/teamhub/repository/TaskRepository.java:109-113 | no live task and no task deleted within the last 30 days is purged |
| ProjectRepository.SortedSameRows | src/main/java/com/teamhub/service/TrashService.java:53-63 | sorting the projects neither adds nor drops a row |
| ProjectRepository.FindAllByWorkspaceId | src/main/java/com/teamhub/service/ProjectService.java:58-68 | exactly the workspace's projects, deleted ones included, no row more often than the table has it |
| ProjectRepository.FindDeletedByWorkspaceId | src/main/java/com/teamhub/service/TrashService.java:53-63 | exactly the workspace's soft-deleted projects, latest deletion first, no row more often than the table has it |
| ProjectRepository.SearchProjects | src/main/java/com/teamhub/service/SearchService.java:54 | exactly the workspace's projects whose name or description contains the keyword, newest first, no row more often than the table has it |
| ProjectRepository.PurgeSet | src/main/java/com/teamhub/service/TrashService.java:145-158 | the purge removes exactly the workspace's projects soft-deleted more than 30 days before now |
| NotificationRepository.FindByRecipientId | src/main/java/com/teamhub/repository/NotificationRepository.java:14-15 | exactly the user's notifications, newest first |
| NotificationRepository.FindUnreadByRecipientId | src/main/java/com/teamhub/repository/NotificationRepository.java:17-18 | exactly the user's unread notifications, newest first |
| NotificationRepository.CountUnread | src/main/java/com/teamhub/repository/NotificationRepository.java:20 | the count is the length of the unread list, and it is 0 exactly when the user has no unread notification |
| NotificationRepository.MarkAllAsRead | src/main/java/com/teamhub/repository/NotificationRepository.java:22-24 | the bulk update keeps every row of the table; its effect is stated by MarkAllAsReadEffect |
| NotificationRepository.MarkAllAsReadEffect | src/main/java/com/teamhub/repository/NotificationRepository.java:22-24 | afterwards the user has nothing unread, other users' rows are untouched, and the count returned is the number of rows changed |
| NotificationService.Push | src/main/java/com/teamhub/service/NotificationService.java:147-157 | the push is recorded as sent, and no table changes |
| NotificationService.AssignedNotification | src/main/java/com/teamhub/service/NotificationService.java:30-40 | to the assignee, from the assigner, about ("TASK", task id), unread |
| NotificationService.SendTaskAssignedNotification | src/main/java/com/teamhub/service/NotificationService.java:29-48 | nothing for an unassigned task; otherwise one row for the assignee and one push attempt carrying it |
| NotificationService.StatusChangedNotification | src/main/java/com/teamhub/service/NotificationService.java:53-61 | to the task's creator, from the changer, about the task, unread |
| NotificationService.SendTaskStatusChangedNotification | src/main/java/com/teamhub/service/NotificationService.java:51-69 | as written: nothing for a change by the creator; for anyone else the notification lacks its NOT NULL message, so the save fails with DATA_INTEGRITY_VIOLATION and neither a row nor a push is left |
| NotificationService.SaveAndPush | src/main/java/com/teamhub/service/NotificationService.java:63-67 | the row is saved and then pushed exactly when its NOT NULL columns are set; otherwise the save fails and nothing is pushed |
| NotificationService.StatusChangedNotificationIntended | src/main/java/com/teamhub/service/NotificationService.java:54-61 | the status-changed notification with a message set, and otherwise the same row |
| NotificationService.SendTaskStatusChangedNotificationIntended | src/main/java/com/teamhub/service/NotificationService.java:51-69 | as intended: the creator, if someone else, gets exactly one row and one push; never a failure |
| NotificationService.CommentNotification | src/main/java/com/teamhub/service/NotificationService.java:74-88 | to the assignee, with the first 30 characters of the comment and "..." when it is longer |
| NotificationService.SendCommentNotification | src/main/java/com/teamhub/service/NotificationService.java:71-90 | one row for the assignee, even when the assignee wrote the comment; no push |
| NotificationService.InvitedNotification | src/main/java/com/teamhub/service/NotificationService.java:92-105 | to the invitee, from the inviter, about ("WORKSPACE", workspace id), unread |
| NotificationService.SendMemberInvitedNotification | src/main/java/com/teamhub/service/NotificationService.java:92-105 | one row for the invitee; no push |
| NotificationService.MarkAsRead | src/main/java/com/teamhub/service/NotificationService.java:128-137 | a missing or foreign notification gives NOTIFICATION_ACCESS_DENIED; otherwise only that row is marked read |
| NotificationService.MarkAllAsRead | src/main/java/com/teamhub/service/NotificationService.java:140-144 | the table becomes the bulk update's result and the count is returned |
| ActivityLogService.Log | src/main/java/com/teamhub/service/ActivityLogService.java:29-42 | a known type name appends exactly one entry with the given fields; an unknown one fails and appends nothing; no membership is checked |
| ActivityLogService.LogType | src/main/java/com/teamhub/service/ActivityLogService.java:29-42 | logging an enum constant always appends exactly its entry |
| ActivityLogService.GetActivities | src/main/java/com/teamhub/service/ActivityLogService.java:45-57 | a non-member gets FORBIDDEN and a limit below 1 fails; a member gets the newest min(limit, n) of the workspace's n entries, newest first |
| TaskService.TaskAccess | src/main/java/com/teamhub/service/TaskService.java:133-140 | the checks on an existing task in source order: TASK_NOT_FOUND, WORKSPACE_ACCESS_DENIED, the operation's denied code for a viewer, USER_NOT_FOUND |
| TaskService.BuildTask | src/main/java/com/teamhub/service/TaskService.java:59-68 | the built task has the requested status or TODO, and the requested priority even when absent |
| TaskService.CreateCheck | src/main/java/com/teamhub/service/TaskService.java:43-57 | the checks of createTask in source order, ending with the assignee's membership (WORKSPACE_ACCESS_DENIED) |
| TaskService.CreateTask | src/main/java/com/teamhub/service/TaskService.java:42-91 | a failed check changes nothing, and a missing priority fails the NOT NULL column and rolls back; otherwise the new task is saved, TASK_CREATED logged, and an assignee other than the creator notified |
| TaskService.SaveNewTask | src/main/java/com/teamhub/service/TaskService.java:70-86 | the writes of createTask after its checks |
| TaskService.Edited | src/main/java/com/teamhub/service/TaskService.java:143-147 | updateInfo, then changeStatus when a status is given |
| TaskService.AssigneeCheck | src/main/java/com/teamhub/service/TaskService.java:154-156 | a given assignee must exist (USER_NOT_FOUND) and be a member (WORKSPACE_ACCESS_DENIED) |
| TaskService.UpdateOutcome | src/main/java/com/teamhub/service/TaskService.java:132-180 | the access errors first; then DATA_INTEGRITY_VIOLATION whenever a status is given by someone other than the creator (its notification has no message); then the assignee errors; then DATA_INTEGRITY_VIOLATION for a missing priority; otherwise the edited, reassigned task |
| TaskService.UpdateTask | src/main/java/com/teamhub/service/TaskService.java:132-180 | the result is UpdateOutcome; a failure leaves tasks, log and notifications as they were; a success writes the task, logs TASK_CREATED and saves the new assignee's notification; a push sent at the assignee step stays even when the commit then fails |
| TaskService.AssignAndCommit | src/main/java/com/teamhub/service/TaskService.java:154-179 | after the checks: the assignee's notification is pushed; the row and the entry are kept exactly when the NOT NULL priority column accepts the row |
| TaskService.AssignAndRefuse | src/main/java/com/teamhub/service/TaskService.java:154-179 | with the priority missing the assignee's push leaves but its notification row is rolled back |
| TaskService.AssignStep | src/main/java/com/teamhub/service/TaskService.java:154-166 | the assignee is set when given and notified, row and push, exactly when new and not the updater |
| TaskService.AssignSent | src/main/java/com/teamhub/service/TaskService.java:160-165 | one TASK_ASSIGNED notification for the given assignee exactly when the assignee is new and not the updater, else none |
| TaskService.Reassigned | src/main/java/com/teamhub/service/TaskService.java:154-157 | the given assignee replaces the old one; every other column stays |
| TaskService.StatusStep | src/main/java/com/teamhub/service/TaskService.java:145-151 | passes exactly when no status is given or the updater created the task; otherwise DATA_INTEGRITY_VIOLATION with nothing saved or pushed |
| TaskService.ChangeTaskStatus | src/main/java/com/teamhub/service/TaskService.java:183-213 | the result is StatusChangeOutcome; nothing is ever saved or pushed to the creator; a change by the creator sets only the status and logs one TASK_STATUS_CHANGED entry "old → new"; a change by anyone else is rolled back and changes nothing |
| TaskService.StatusChangeOutcome | src/main/java/com/teamhub/service/TaskService.java:183-213 | the access errors; then success exactly when the changer created the task, else DATA_INTEGRITY_VIOLATION; a success is the task with only its status replaced |
| TaskService.StatusChangeSteps | src/main/java/com/teamhub/service/TaskService.java:194-212 | after the checks: kept exactly when the changer created the task, with the changed row and one entry; otherwise no table changes |
| TaskService.NoteStatusChange | src/main/java/com/teamhub/service/TaskService.java:197-208 | the entry is kept exactly when the notification step succeeds; no notification row and no push either way |
| TaskService.DeleteTask | src/main/java/com/teamhub/service/TaskService.java:216-239 | TASK_DELETED is logged and the row soft-deleted; it stays in the table |
| TaskService.GetTask | src/main/java/com/teamhub/service/TaskService.java:124-129 | the task, deleted or not, to members of its workspace only |
| TrashService.GetDeletedTasks | src/main/java/com/teamhub/service/TrashService.java:38-48 | a non-member gets WORKSPACE_ACCESS_DENIED, MEMBER and VIEWER get ACCESS_DENIED; otherwise exactly the workspace's deleted tasks, latest first, each once |
| TrashService.GetDeletedProjects | src/main/java/com/teamhub/service/TrashService.java:53-63 | the same gate; exactly the workspace's deleted projects, latest first, each once |
| TrashService.TaskCheck | src/main/java/com/teamhub/service/TrashService.java:70-79 | TASK_NOT_FOUND for a missing task, deleted or not, before the membership and role checks |
| TrashService.ProjectCheck | src/main/java/com/teamhub/service/TrashService.java:90-98 | PROJECT_NOT_FOUND before the membership and role checks |
| TrashService.RestoreTask | src/main/java/com/teamhub/service/TrashService.java:69-83 | only that task's deletion flags are cleared; a live task stays live; a refusal changes nothing |
| TrashService.RestoreProject | src/main/java/com/teamhub/service/TrashService.java:89-103 | only that project's deletion flags are cleared; its tasks keep theirs |
| TrashService.PermanentDeleteTask | src/main/java/com/teamhub/service/TrashService.java:109-121 | only the OWNER; the task, trashed or not, is deleted exactly when no comment, checklist item or file references it; otherwise DATA_INTEGRITY_VIOLATION and no change |
| TrashService.PermanentDeleteProject | src/main/java/com/teamhub/service/TrashService.java:127-139 | only the OWNER; the project and, by the cascade, its tasks go exactly when no row references one of those tasks; otherwise DATA_INTEGRITY_VIOLATION and no change |
| TrashService.EmptyTrash | src/main/java/com/teamhub/service/TrashService.java:145-158 | only the OWNER; the purge succeeds exactly when no row references a purged task and no task left behind belongs to a purged project; then exactly the purge sets go and the result is their total; otherwise DATA_INTEGRITY_VIOLATION and no change |
| TrashService.PurgeWindow | src/main/java/com/teamhub/repository/TaskRepository.java:109-113 | a task trashed 31 days ago is purged, one trashed 29 days ago is not |
| TrashService.AdminCannotPurge | src/main/java/com/teamhub/service/TrashService.java:113-157 | an ADMIN passes the listing and restore gates and fails the permanent-delete and purge gates |
| ProjectService.Views | src/main/java/com/teamhub/service/ProjectService.java:64-67 | each project with the size of its task collection |
| ProjectService.CreateCheck | src/main/java/com/teamhub/service/ProjectService.java:36-43 | WORKSPACE_ACCESS_DENIED, PROJECT_CREATE_DENIED, WORKSPACE_NOT_FOUND, in that order |
| ProjectService.CreateProject | src/main/java/com/teamhub/service/ProjectService.java:35-55 | a new live project of the workspace, reported with task count 0 |
| ProjectService.GetProjects | src/main/java/com/teamhub/service/ProjectService.java:58-68 | any member gets every project of the workspace with its task count, each project once; a non-member gets WORKSPACE_ACCESS_DENIED |
| ProjectService.ProjectAccess | src/main/java/com/teamhub/service/ProjectService.java:110-118 | PROJECT_NOT_FOUND, then WORKSPACE_ACCESS_DENIED, then the operation's denied code |
| ProjectService.GetProject | src/main/java/com/teamhub/service/ProjectService.java:71-75 | any member gets the project, deleted or not, with its task count |
| ProjectService.UpdateProjectAsWritten | src/main/java/com/teamhub/service/ProjectService.java:77-88 | the answer carries the new name and description while the table keeps the old row |
| ProjectService.UpdateAsWrittenIsLost | src/main/java/com/teamhub/service/ProjectService.java:77-88 | after an update as written that renames, the stored project differs from the one returned |
| ProjectService.UpdateProject | src/main/java/com/teamhub/service/ProjectService.java:78-88 | as intended: only name and description of that row change, and the answer is the stored row |
| ProjectService.DeleteProject | src/main/java/com/teamhub/service/ProjectService.java:91-102 | a hard delete: the project and, by the cascade, its tasks leave the tables exactly when no comment, checklist item or file references one of those tasks; otherwise DATA_INTEGRITY_VIOLATION and no change |
| ProjectService.DeletedProjectNotInTrash | src/main/java/com/teamhub/service/ProjectService.java:99 | a deleted project is not in the trash listing afterwards |
| WorkspaceService.CreatorIsOwner | src/main/java/com/teamhub/service/WorkspaceService.java:48-54 | a fresh workspace has exactly one membership, the creator's, as OWNER |
| WorkspaceService.CreateWorkspace | src/main/java/com/teamhub/service/WorkspaceService.java:36-59 | a new live workspace and exactly one new membership, the creator's as OWNER |
| WorkspaceService.MyWorkspaces | src/main/java/com/teamhub/service/WorkspaceService.java:62-73 | exactly the workspaces the user is a member of, each with the user's role |
| WorkspaceService.WorkspaceAccess | src/main/java/com/teamhub/service/WorkspaceService.java:76-104 | WORKSPACE_NOT_FOUND, then the guarded membership |
| WorkspaceService.GetWorkspace | src/main/java/com/teamhub/service/WorkspaceService.java:76-81 | any member gets the workspace and their role |
| WorkspaceService.UpdateWorkspace | src/main/java/com/teamhub/service/WorkspaceService.java:84-94 | OWNER or ADMIN overwrite name and description; the refusal is WORKSPACE_DELETE_DENIED |
| WorkspaceService.DeleteWorkspace | src/main/java/com/teamhub/service/WorkspaceService.java:97-106 | only the OWNER, and only a soft delete |
| WorkspaceService.InviteCheck | src/main/java/com/teamhub/service/WorkspaceService.java:110-125 | the invite checks in source order, ending with MEMBER_ALREADY_EXISTS |
| WorkspaceService.AddKeepsPairsUnique | src/main/java/com/teamhub/service/WorkspaceService.java:123-130 | adding a membership for a user without one in the workspace keeps the pairs unique |
| WorkspaceService.InviteMember | src/main/java/com/teamhub/service/WorkspaceService.java:109-144 | exactly one new membership with the requested role, and one MEMBER_INVITED notification |
| WorkspaceService.SecondInviteRefused | src/main/java/com/teamhub/service/WorkspaceService.java:123-125 | once an invitation is accepted, inviting the same address again answers MEMBER_ALREADY_EXISTS |
| WorkspaceService.GetMembers | src/main/java/com/teamhub/service/WorkspaceService.java:147-154 | any member gets exactly the memberships of the workspace |
| WorkspaceService.RemoveCheck | src/main/java/com/teamhub/service/WorkspaceService.java:158-169 | the removal checks as written, ending with CANNOT_REMOVE_OWNER for every target that is not an OWNER |
| WorkspaceService.RemoveMember | src/main/java/com/teamhub/service/WorkspaceService.java:157-173 | the membership goes only when it is an OWNER's |
| WorkspaceService.OnlyOwnersRemovable | src/main/java/com/teamhub/service/WorkspaceService.java:167-171 | no MEMBER, ADMIN or VIEWER membership is ever removed |
| WorkspaceService.RemoveAcrossWorkspaces | src/main/java/com/teamhub/service/WorkspaceService.java:164-165 | an OWNER of one workspace removes the OWNER membership of another by its id |
| SchedulerService.Reminder | src/main/java/com/teamhub/service/SchedulerService.java:66-75 | to the assignee, from nobody, about ("TASK", task id) |
| SchedulerService.Reminders | src/main/java/com/teamhub/service/SchedulerService.java:42-48 | one reminder per assigned task, in the query's order |
| SchedulerService.SendReminders | src/main/java/com/teamhub/service/SchedulerService.java:42-85 | each reminder is saved and its push failure swallowed; the count is the number saved |
| SchedulerService.SendDueDateReminders | src/main/java/com/teamhub/service/SchedulerService.java:33-51 | the window is [today, today + 3]; one reminder per due task of the table is appended and pushed, and the count is the number of due tasks |
| SchedulerService.DueListExact | src/main/java/com/teamhub/service/SchedulerService.java:36-48 | every due task of the table gets exactly one reminder per run |
| SchedulerService.MessageForms | src/main/java/com/teamhub/service/SchedulerService.java:55-64 | the text for a task due in three days, and that "today" and "tomorrow" read differently |
| MentionService.ExtractMentions | src/main/java/com/teamhub/service/MentionService.java:34-43 | the scan returns exactly the names of all mentions in the text |
| MentionService.NamesWellFormed | src/main/java/com/teamhub/service/MentionService.java:26-40 | every name is non-empty, of word characters only, right after an '@', and maximal |
| MentionService.NoMentionIffNoAtWord | src/main/java/com/teamhub/service/MentionService.java:34-43 | no name is found exactly when no '@' is followed by a word character |
| MentionService.MentionExamples | src/main/java/com/teamhub/service/MentionService.java:35-39 | repeated mentions collapse into one name; "@ x" has none |
| MentionService.ProcessMentions | src/main/java/com/teamhub/service/MentionService.java:49-68 | no notification is written or pushed, whatever the text |
| ChecklistService.TaskCheck | src/main/java/com/teamhub/service/ChecklistService.java:33-34 | TASK_NOT_FOUND, then a membership of any role (WORKSPACE_ACCESS_DENIED) |
| ChecklistService.ItemCheck | src/main/java/com/teamhub/service/ChecklistService.java:58-59 | CHECKLIST_ITEM_NOT_FOUND, then a membership of any role |
| ChecklistService.AddItem | src/main/java/com/teamhub/service/ChecklistService.java:32-45 | one new open item, numbered with the count of the task's items |
| ChecklistService.AddKeepsNumbering | src/main/java/com/teamhub/service/ChecklistService.java:36-42 | a task numbered 0 .. n - 1 stays so after an add |
| ChecklistService.AddAfterDeleteRepeatsOrder | src/main/java/com/teamhub/service/ChecklistService.java:36-79 | after a delete, a new item can repeat the order of an item still there |
| ChecklistService.SortByOrder | src/main/java/com/teamhub/service/ChecklistService.java:52 | a permutation of the rows in ascending display order |
| ChecklistService.GetItems | src/main/java/com/teamhub/service/ChecklistService.java:47-54 | the task check's error, or exactly the task's items, each once, in ascending display order |
| ChecklistService.UpdateItem | src/main/java/com/teamhub/service/ChecklistService.java:57-63 | only that item's content changes |
| ChecklistService.ToggleItem | src/main/java/com/teamhub/service/ChecklistService.java:66-72 | only that item's flag flips |
| ChecklistService.DeleteItem | src/main/java/com/teamhub/service/ChecklistService.java:75-80 | only that item goes; the others keep their orders |
| ChecklistService.Reordered | src/main/java/com/teamhub/service/ChecklistService.java:87-90 | only display orders of listed items change; unlisted items are untouched |
| ChecklistService.ReorderedPosition | src/main/java/com/teamhub/service/ChecklistService.java:87-90 | a listed item ends at the index of its last occurrence in the list |
| ChecklistService.ReorderItems | src/main/java/com/teamhub/service/ChecklistService.java:83-91 | the list's items take their indexes, whatever task they belong to; an unknown id gives CHECKLIST_ITEM_NOT_FOUND and changes nothing |
| ChecklistService.ReorderNumbersTheTask | src/main/java/com/teamhub/service/ChecklistService.java:83-91 | a list of exactly the task's items numbers them 0 .. n - 1 in list order |
| CommentService.CommentDetail | src/main/java/com/teamhub/service/CommentService.java:64 | "댓글: " and the whole content when it has at most 50 characters, otherwise its first 50 characters and "..." |
| CommentService.CreateCheck | src/main/java/com/teamhub/service/CommentService.java:41-45 | TASK_NOT_FOUND, then WORKSPACE_NOT_FOUND for a non-member, then USER_NOT_FOUND |
| CommentService.CreateComment | src/main/java/com/teamhub/service/CommentService.java:40-76 | one new comment, one COMMENT_ADDED entry with the task title and preview, the assignee's notification; mentions add nothing; a refusal changes nothing |
| CommentService.AddComment | src/main/java/com/teamhub/service/CommentService.java:48-75 | after the checks: one new comment under a fresh key, its entry and the assignee's notification |
| CommentService.GetComments | src/main/java/com/teamhub/service/CommentService.java:79-89 | any member gets exactly the task's comments, oldest first |
| CommentService.UpdateCheck | src/main/java/com/teamhub/service/CommentService.java:93-99 | COMMENT_NOT_FOUND, then COMMENT_UPDATE_DENIED for anyone but the author |
| CommentService.UpdateComment | src/main/java/com/teamhub/service/CommentService.java:92-102 | only the content of the author's comment changes |
| CommentService.DeleteCheck | src/main/java/com/teamhub/service/CommentService.java:106-116 | the author or a member who may manage members, else COMMENT_DELETE_DENIED |
| CommentService.DeleteComment | src/main/java/com/teamhub/service/CommentService.java:105-118 | only that comment goes |
| CommentService.DeleteRights | src/main/java/com/teamhub/service/CommentService.java:112-116 | the author and an OWNER or ADMIN may delete; a MEMBER or VIEWER may not delete someone else's |
| CommentService.FormerMemberEditsOnly | src/main/java/com/teamhub/service/CommentService.java:92-116 | an author who left the workspace can still edit but no longer delete |
| LabelService.CreateCheck | src/main/java/com/teamhub/service/LabelService.java:36-49 | WORKSPACE_ACCESS_DENIED, ACCESS_DENIED, DUPLICATE_LABEL_NAME, WORKSPACE_NOT_FOUND, in that order |
| LabelService.CreateLabel | src/main/java/com/teamhub/service/LabelService.java:35-58 | one new label of the workspace, or nothing on a refusal |
| LabelService.CreateKeepsNamesUnique | src/main/java/com/teamhub/service/LabelService.java:43-46 | creation keeps each workspace's label names distinct |
| LabelService.RenameCanDuplicate | src/main/java/com/teamhub/service/LabelService.java:77 | a rename can give two labels of a workspace the same name |
| LabelService.GetLabels | src/main/java/com/teamhub/service/LabelService.java:60-66 | any member gets exactly the workspace's labels, each once; a non-member gets WORKSPACE_ACCESS_DENIED |
| LabelService.LabelCheck | src/main/java/com/teamhub/service/LabelService.java:70-75 | LABEL_NOT_FOUND, then the manage-projects guard |
| LabelService.UpdateLabel | src/main/java/com/teamhub/service/LabelService.java:69-79 | only name and color of that label change |
| LabelService.DeleteLabel | src/main/java/com/teamhub/service/LabelService.java:82-91 | only that label row goes |
| LabelService.TaskLabelCheck | src/main/java/com/teamhub/service/LabelService.java:95-101 | TASK_NOT_FOUND, LABEL_NOT_FOUND, then a membership of any role |
| LabelService.AddLabel | src/main/java/com/teamhub/service/LabelService.java:101 | the label joins the task's set; nothing else changes |
| LabelService.RemoveLabel | src/main/java/com/teamhub/service/LabelService.java:111 | the label leaves the task's set; nothing else changes |
| LabelService.LabelSetLaws | src/main/java/com/teamhub/service/LabelService.java:94-113 | adding twice is adding once; removing undoes a new add |
| LabelService.AddLabelToTask | src/main/java/com/teamhub/service/LabelService.java:94-102 | only that task's label set changes |
| LabelService.RemoveLabelFromTask | src/main/java/com/teamhub/service/LabelService.java:105-113 | only that task's label set changes |
| LabelService.ForeignLabelAccepted | src/main/java/com/teamhub/service/LabelService.java:94-101 | a member of the task's workspace may put on it a label of any workspace |
| LoginAttemptService.AfterFailure | src/main/java/com/teamhub/service/LoginAttemptService.java:21-36 | the found or new record, counted once more, locked for 30 minutes once the count reaches 5 |
| LoginAttemptService.LoginFailed | src/main/java/com/teamhub/service/LoginAttemptService.java:21-36 | only that address's record changes, to its successor |
| LoginAttemptService.LoginSucceeded | src/main/java/com/teamhub/service/LoginAttemptService.java:39-45 | an existing record is reset; without one nothing changes |
| LoginAttemptService.IsBlocked | src/main/java/com/teamhub/service/LoginAttemptService.java:48-52 | blocked exactly when a record exists and is locked now |
| LoginAttemptService.RemainingAttempts | src/main/java/com/teamhub/service/LoginAttemptService.java:55-59 | 5 without a record, else 5 minus the count, possibly negative |
| LoginAttemptService.FailuresCount | src/main/java/com/teamhub/service/LoginAttemptService.java:21-36 | n failures from no record leave count n, locked from the fifth on, other addresses untouched |
| LoginAttemptService.FiveFailuresBlock | src/main/java/com/teamhub/service/LoginAttemptService.java:15-36 | after five failures no attempt remains and the address is blocked for 30 minutes from the fifth |
| LoginAttemptService.FourFailuresDoNotBlock | src/main/java/com/teamhub/service/LoginAttemptService.java:15-36 | after four failures one attempt remains and the address is not blocked |
| LoginAttemptService.FailuresBelowLimitUnlocked | src/main/java/com/teamhub/service/LoginAttemptService.java:30-33 | below the limit no lock is set |
| LoginAttemptService.FailureAfterExpiryRelocks | src/main/java/com/teamhub/service/LoginAttemptService.java:30-33 | once over the limit, a failure after the lock ran out locks again at once |
| LoginAttemptService.SuccessRestores | src/main/java/com/teamhub/service/LoginAttemptService.java:39-59 | after a success the address is not blocked and has 5 attempts |
| AuthService.DeleteByUser | src/main/java/com/teamhub/service/AuthService.java:114 | every refresh token of the user goes, the others stay |
| AuthService.Issued | src/main/java/com/teamhub/service/AuthService.java:119-149 | the user's old tokens are gone and the new one is saved with its expiry |
| AuthService.IssueTokens | src/main/java/com/teamhub/service/AuthService.java:119-149 | the refresh-token table becomes Issued and the answer carries both tokens and the user |
| AuthService.OneTokenPerUser | src/main/java/com/teamhub/service/AuthService.java:127-136 | after an issue the user holds exactly one refresh token |
| AuthService.SignUp | src/main/java/com/teamhub/service/AuthService.java:41-61 | a taken address gives DUPLICATE_EMAIL and changes nothing; otherwise a new user with the encoded password and new tokens |
| AuthService.LoginCheck | src/main/java/com/teamhub/service/AuthService.java:66-80 | ACCOUNT_LOCKED before the lookup; an unknown address and a wrong password both INVALID_CREDENTIALS |
| AuthService.Login | src/main/java/com/teamhub/service/AuthService.java:64-86 | the checks, then tokens issued; the login-attempt table is unchanged |
| AuthService.WrongPasswordNeverLocks | src/main/java/com/teamhub/service/AuthService.java:64-86 | without a lock record, a wrong password answers INVALID_CREDENTIALS, never ACCOUNT_LOCKED |
| AuthService.RefreshAsWritten | src/main/java/com/teamhub/service/AuthService.java:88-108 | an expired token answers EXPIRED_TOKEN and, rolled back, stays in the table |
| AuthService.Refresh | src/main/java/com/teamhub/service/AuthService.java:89-108 | as intended: an expired token is removed; a valid one is replaced by new tokens |
| AuthService.RefreshCheck | src/main/java/com/teamhub/service/AuthService.java:91-98 | INVALID_TOKEN for an unknown token, EXPIRED_TOKEN for an expired one |
| AuthService.ExpiredTokenRetries | src/main/java/com/teamhub/service/AuthService.java:94-98 | as written a retry with the expired token answers EXPIRED_TOKEN again; after the corrected refresh it answers INVALID_TOKEN |
| AuthService.Logout | src/main/java/com/teamhub/service/AuthService.java:111-117 | every refresh token of the user goes; an unknown user gives USER_NOT_FOUND |
| AuthService.ChangePassword | src/main/java/com/teamhub/service/AuthService.java:152-162 | a wrong current password gives INVALID_PASSWORD; otherwise only the stored password changes |
| AuthService.RequestPasswordReset | src/main/java/com/teamhub/service/AuthService.java:165-177 | a known address gets a new 30-minute token; older tokens stay |
| AuthService.ConfirmCheck | src/main/java/com/teamhub/service/AuthService.java:181-185 | INVALID_TOKEN for an unknown token, TOKEN_EXPIRED for one that is not valid now |
| AuthService.ConfirmPasswordReset | src/main/java/com/teamhub/service/AuthService.java:180-196 | the password changes, the token is marked used, and the user's login attempts are reset |
| AuthService.SecondConfirmFails | src/main/java/com/teamhub/service/AuthService.java:181-193 | a second confirm with the same token answers TOKEN_EXPIRED |
| AuthService.OlderResetTokensStay | src/main/java/com/teamhub/service/AuthService.java:165-171 | a new request leaves each earlier token as valid as it was |
| FileService.GetExtension | src/main/java/com/teamhub/service/FileService.java:178-183 | "" for no name or a name without '.', else the text after the last '.', which holds no '.' |
| FileService.ExtensionRoundTrip | src/main/java/com/teamhub/service/FileService.java:178-183 | the extension of base + "." + ext is ext, for any ext without '.' |
| FileService.ValidateFile | src/main/java/com/teamhub/service/FileService.java:163-176 | INVALID_INPUT for an empty file, FILE_SIZE_EXCEEDED above the limit, INVALID_FILE_TYPE unless the lowered extension is a list entry; valid exactly otherwise |
| FileService.UpperCaseEntryNeverMatches | src/main/java/com/teamhub/config/FileProperties.java:21-23 | a list entry holding a capital letter matches no extension |
| FileService.SpacedEntryNeedsSpacedExtension | src/main/java/com/teamhub/config/FileProperties.java:21-23 | an entry starting with a blank matches only an extension starting with a blank |
| FileService.Attachment | src/main/java/com/teamhub/service/FileService.java:72-89 | the stored name is uuid + "." + extension and the path is the upload directory + "/" + stored name; the file type is the extension as given; the NOT NULL name column is set exactly when the client gave a name |
| FileService.UploadCheck | src/main/java/com/teamhub/service/FileService.java:59-70 | TASK_NOT_FOUND, WORKSPACE_ACCESS_DENIED, TASK_UPDATE_DENIED, then validation, then USER_NOT_FOUND |
| FileService.UploadFile | src/main/java/com/teamhub/service/FileService.java:58-99 | a failed check changes nothing; a failed copy gives FILE_UPLOAD_FAILED and saves nothing; a file without a name is copied but its row is refused (DATA_INTEGRITY_VIOLATION); otherwise the file is on disk at its stored path and its row saved |
| FileService.CopyAndSave | src/main/java/com/teamhub/service/FileService.java:75-99 | the copy, then the save of the row under a fresh key; the row is refused exactly when the client gave no name |
| FileService.TaskCheck | src/main/java/com/teamhub/service/FileService.java:103-104 | TASK_NOT_FOUND, then a membership of any role |
| FileService.GetFiles | src/main/java/com/teamhub/service/FileService.java:102-112 | any member gets exactly the task's attachments, newest first |
| FileService.FileCheck | src/main/java/com/teamhub/service/FileService.java:116-117 | FILE_NOT_FOUND, then a membership of any role |
| FileService.DownloadFile | src/main/java/com/teamhub/service/FileService.java:115-133 | the stored path when the file is on disk, else FILE_NOT_FOUND |
| FileService.OriginalFileName | src/main/java/com/teamhub/service/FileService.java:159-161 | the client's name of the file, FILE_NOT_FOUND for a missing row |
| FileService.DeleteCheck | src/main/java/com/teamhub/service/FileService.java:137-145 | the uploader or a member who may manage members, else TASK_DELETE_DENIED |
| FileService.DeleteFile | src/main/java/com/teamhub/service/FileService.java:136-156 | the row goes even when the disk delete fails |
| SearchService.FindMemberOrThrow | src/main/java/com/teamhub/service/SearchService.java:60-63 | the helper succeeds exactly for a membership of (workspace, user), else WORKSPACE_ACCESS_DENIED |
| SearchService.Gate | src/main/java/com/teamhub/service/SearchService.java:34 | as written the gate passes exactly when the user id names a workspace in which the workspace id is a user |
| SearchService.IntendedGate | src/main/java/com/teamhub/service/SearchService.java:60-63 | the gate passes exactly for a member of the workspace |
| SearchService.SwappedGateExample | src/main/java/com/teamhub/service/SearchService.java:34 | a member is refused and a non-member admitted by the gate as written |
| SearchService.SearchTasks | src/main/java/com/teamhub/service/SearchService.java:32-48 | past the gate as written, exactly the workspace's tasks matching the unchanged filter, newest first, no row more often than given and each once over a table with distinct ids |
| SearchService.SearchTasksIntended | src/main/java/com/teamhub/service/SearchService.java:32-48 | with the intended gate, a member and only a member gets the same hits, no row more often than given and each once over a table with distinct ids |
| SearchService.WithCounts | src/main/java/com/teamhub/service/SearchService.java:54-57 | one result per hit, in order, with countByProjectId as its task count |
| SearchService.SearchProjects | src/main/java/com/teamhub/service/SearchService.java:50-58 | past the gate as written, exactly the matching projects of the workspace, newest first, each with its task count, each project once over a table with distinct ids |
| JwtFilter.ResolveToken | src/main/java/com/teamhub/security/JwtAuthenticationFilter.java:68-76 | a token exactly when the header starts with "Bearer ", and then the header is "Bearer " + token |
| JwtFilter.ResolveRoundTrip | src/main/java/com/teamhub/security/JwtAuthenticationFilter.java:72-74 | whatever follows "Bearer " comes back as the token |
| JwtFilter.LowerCaseSchemeIgnored | src/main/java/com/teamhub/security/JwtAuthenticationFilter.java:72-75 | a "bearer " header carries no token |
| JwtFilter.BareSchemeNotAuthenticated | src/main/java/com/teamhub/security/JwtAuthenticationFilter.java:46 | "Bearer " alone gives the empty token, and nobody is authenticated |
| JwtFilter.BlankTokenIgnored | src/main/java/com/teamhub/security/JwtAuthenticationFilter.java:46 | a blank token authenticates nobody whatever the validator says |
| JwtFilter.DoFilterInternal | src/main/java/com/teamhub/security/JwtAuthenticationFilter.java:27-66 | the token's user is set exactly for a valid token with text, the context is untouched otherwise, and the chain is always called |
| RateLimitFilter.ClientIp | src/main/java/com/teamhub/config/RateLimitFilter.java:49-55 | the remote address without a forwarded header; a header of commas only fails on index 0 |
| RateLimitFilter.FirstEntryIsClient | src/main/java/com/teamhub/config/RateLimitFilter.java:52 | the client is the trimmed text before the first comma |
| RateLimitFilter.Consume | src/main/java/com/teamhub/config/RateLimitFilter.java:37-39 | a token is taken exactly when the client's bucket has one; other buckets are untouched |
| RateLimitFilter.ConsumeManyCounts | src/main/java/com/teamhub/config/RateLimitFilter.java:37-39 | of n requests in a row, as many pass as the bucket held, at most n |
| RateLimitFilter.NewClientGetsHundred | src/main/java/com/teamhub/config/RateLimitFilter.java:24-27 | a new client gets 100 requests through and the 101st is refused |
| RateLimitFilter.RateLimiter.DoFilter | src/main/java/com/teamhub/config/RateLimitFilter.java:30-47 | the request goes on exactly when a token was taken, else 429 with the JSON error; a bad header changes no bucket |

## Left out

- Controllers, DTOs and their `of(...)` mappers. `TaskResponse.of` is the identity here, and `ProjectResponse.of` is a project paired with its count.
- `TaskService.getTasks`, `getTasksByStatus`, `getMyTasks` and `getTasksPaged`: plain finder pass-throughs outside the modelled operations.
- `NotificationService.getNotifications`, `getUnreadNotifications` and `getUnreadCount` are represented by the repository functions they call.
- `SchedulerService.sendWeeklySummary` only writes a log line, and the model has no log. `FileService.init` creates the upload directory, which is disk I/O. It also makes the configured directory absolute and normalizes it; the model's `uploadDir` stands for that resolved path.
- The password encoder, the JWT provider and the UUID generator are parameters. The mail that should carry a reset token is not sent by the source either.
- Disk I/O in `FileService` (`Files.copy`, `UrlResource`, `deleteIfExists`): the disk is a set of stored paths, and whether a copy or a delete succeeds is left open. A download returns the path rather than a resource.
- Real-time push: the channel is a list of the notifications sent. Whether one arrives is not modelled, because the source swallows a delivery failure.
- Logging (`log.info`, `log.warn`) and the API logging aspect.
- `@Transactional` is modelled only as "a thrown error leaves the tables as they were". Concurrency, isolation, the restore-versus-purge race and the concurrent bucket map are not modelled.
- JPA entity identity and dirty checking: an entity changed in memory is written back explicitly under its key.
- `RateLimitFilter.RateLimiter.DoFilter`: the bucket library's refill of 100 tokens a minute is not modelled, so a bucket only drains.
- `JavaStrings.ToLower`: lowers ASCII letters only, because Java's locale-dependent Unicode lower-casing is not modelled.
- `LoginAttemptService.AfterFailure`: the count is an unbounded integer, because the 32-bit wrap-around of `attemptCount` would need over two billion failures.
- Clocks: `LoginAttempt` reads the clock twice per failure and `SchedulerService` reads the date twice; the model uses one injected time for each call.
- The purge queries delete rows without the ORM cascade, and the `task_id` columns of checklist items, files and task labels are NOT NULL foreign keys. So a delete that would leave such a row without its task is refused, and the transaction rolls back. `Comment.java` is not part of this model; its `task_id` is taken to be the same kind of key. `ProjectRepository.java` is not part of this model either; its purge is taken to be a bulk delete without cascade, like the task purge.
- `TrashService.EmptyTrash`, `TaskRepository.PurgeSet`: the native task purge (TaskRepository.java:109-113) joins with PostgreSQL's `DELETE ... USING` but computes the cut-off with MySQL's `NOW() - INTERVAL 30 DAY`, so neither database accepts it as written. The model takes the query to run in its intended meaning: delete the workspace's tasks soft-deleted more than 30 days before now.
- `TrashService.EmptyTrash`, `TrashService.PermanentDeleteTask`, `TrashService.PermanentDeleteProject`, `ProjectService.DeleteProject`: task-label join rows are not a table of the model, so a refusal caused by a label on a task is not modelled.
- `Members.FindMember`, `Members.MemberOrThrow`: the JPQL of `findByWorkspaceIdAndUserId` names `:workspacedId` while the parameter is bound as `workspaceId` (WorkspaceMemberRepository.java:13-15). Spring would refuse the query when it binds it. The model gives the lookup the meaning its name states, and every membership check rests on that.
- `JavaStrings.Truncate`, `NotificationService.CommentNotification`, `CommentService.CommentDetail`: Java's `length` and `substring` count UTF-16 code units, while the model counts characters. A text with characters outside the Basic Multilingual Plane is cut at a different place, and Java can split a surrogate pair.
- `JavaStrings.IsWhitespace`, `JavaStrings.HasText`: only the ASCII whitespace characters count as whitespace. Java's `Character.isWhitespace` also accepts the Unicode space separators.
- `TaskRepository.SearchTasks`, `ProjectRepository.SearchProjects`: the keyword is matched as a case-sensitive substring. MySQL's LIKE under the default collation ignores case, and `%` and `_` in the keyword act as wildcards.
- `StoreState.KeysInOrder`: `ORDER BY createdAt` is modelled by key order. Keys are handed out in creation order, and rows created in the same instant are put in key order, which the database does not promise.
- `ActivityLogService.LogType`: `ActivityLogService.log` declares `activityType` and `targetType` as `String` (ActivityLogService.java:29-30), while every caller passes `ActivityType` and `TargetType` constants (TaskService.java:76, 172, 200, 230; CommentService.java:60), so the source does not compile as written. The model reads each constant argument as its `.name()`, which `ActivityType.valueOf` then maps back to the constant.
- `LabelService.DeleteLabel`: the task-label join rows are not removed. Task labels are modelled as a set on the task rather than as `task_labels` rows, so the refusal that the NOT NULL `label_id` foreign key (TaskLabel.java:22-24) would cause while a task still carries the label is not modelled; tasks may keep the id of a deleted label.
- Task labels are a set of label ids on the task. `Task` as written has no label collection and no `addLabel`/`removeLabel`, so their evident intent is modelled.
- `LabelService.CreateLabel`: when two labels of the workspace already share the name, the model answers DUPLICATE_LABEL_NAME. In the source, `findByWorkspaceIdAndName` would throw an IncorrectResultSizeDataAccessException instead.
- Repository methods the source calls but does not declare (`ProjectRepository.findDeletedByWorkspaceId`, `findByIdIncludeDeleted`, `deleteOldDeletedItems`, `searchProjects`) and the error codes it references but does not define are modelled by analogy with the declared ones.
- `WorkspaceService.MyWorkspaces`: the JPQL query over `w.members` is modelled as intended: the workspaces with a membership of the user.
- `TrashService.GetDeletedProjects`: the task count of each listed project is not modelled; the source reports 0 for every one.
- The order of `getMembers` results is not modelled.
- `NotificationService.MarkAsRead`: `markAsRead` has no `@Transactional` of its own, so whether the change is flushed depends on the request's session. The model stores it.

## Findings

| source | as written | input that shows it | evidently intended | confidence | as-written member | corrected member |
|---|---|---|---|---|---|---|
| src/main/java/com/teamhub/service/ProjectService.java:77 | `updateProject` runs in a read-only transaction, so the changed name and description are never flushed; the response shows them, but the table keeps the old ones | any successful update whose name differs from the stored one | the update is stored | not executed | ProjectService.UpdateProjectAsWritten (lemma ProjectService.UpdateAsWrittenIsLost) | ProjectService.UpdateProject |
| src/main/java/com/teamhub/service/AuthService.java:95-98 | the expired refresh token is deleted and then EXPIRED_TOKEN is thrown, which rolls the delete back, so the expired row is never removed | refresh with a stored token whose expiry has passed, then refresh with it again: EXPIRED_TOKEN both times | the expired token is removed, so a retry answers INVALID_TOKEN | not executed | AuthService.RefreshAsWritten (lemma AuthService.ExpiredTokenRetries) | AuthService.Refresh |
| src/main/java/com/teamhub/service/NotificationService.java:54-63 | the status-changed notification is built without a message, but `message` is a NOT NULL column (Notification.java:28-29). The save fails, so `changeTaskStatus` by anyone but the creator, and `updateTask` with a status, always roll back without a push | task created by user 1, status changed by user 2 (a MEMBER of the workspace): DATA_INTEGRITY_VIOLATION and no change | the creator is notified with a message, and the change is kept | not executed | NotificationService.SendTaskStatusChangedNotification (function TaskService.StatusChangeOutcome) | NotificationService.SendTaskStatusChangedNotificationIntended |
| src/main/java/com/teamhub/service/SearchService.java:34 | `findMemberOrThrow(userId, workspaceId)` calls a helper declared as (workspaceId, userId), so membership is looked up with the ids swapped | one membership, user 2 in workspace 1: user 2 is refused a search of workspace 1, while user 1 is allowed to search workspace 2 | the caller must be a member of the workspace searched | not executed | SearchService.SearchTasks (lemma SearchService.SwappedGateExample) | SearchService.SearchTasksIntended |
