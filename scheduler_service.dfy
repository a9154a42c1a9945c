/**
 * The daily due-date sweep: every task due between today and three days from
 * today, not DONE and with an assignee, gets one DUE_DATE_REMINDER for its
 * assignee, persisted and pushed. The sweep keeps no record of earlier runs,
 * so running it twice on a day sends every reminder twice. The clock is the
 * day number passed in, read once for the window and the message.
 */
module SchedulerService {
  import opened Common
  import opened Tasks
  import opened Notifications
  import opened StoreState
  import opened JavaStrings
  import TaskRepository
  import NotificationService

  /** The sweep window is today through today + 3, both ends included. */
  const WINDOW_DAYS: nat := 3

  /** The message for a task due in days days: today, tomorrow, or in N days. */
  function DueMessage(title: string, days: nat): string
  {
    if days == 0 then "'" + title + "' 태스크가 오늘 마감입니다!"
    else if days == 1 then "'" + title + "' 태스크가 내일 마감입니다."
    else "'" + title + "' 태스크가 " + Decimal(days) + "일 후 마감입니다."
  }

  /** The reminder of one task: to its assignee, from nobody, about the task. */
  function Reminder(t: Task, today: Day): (n: Notification)
    requires Due(t, today)
    ensures n.kind == DueDateReminder && n.recipient == t.assignee.value && n.sender.None?
    ensures n.targetType == "TASK" && n.targetId == t.id && !n.isRead
    ensures n.message == Some(DueMessage(t.title, t.dueDate.value - today))
  {
    Notification(DueDateReminder, "마감 임박 알림", Some(DueMessage(t.title, t.dueDate.value - today)),
                 t.assignee.value, None, "TASK", t.id, false)
  }

  predicate Due(t: Task, today: Day)
  {
    TaskRepository.DueBetween(t, today, today + WINDOW_DAYS)
  }

  /** The reminders the loop sends for ts, in order: one per assigned task. */
  function Reminders(ts: seq<Task>, today: Day): (r: seq<Notification>)
    requires forall i :: 0 <= i < |ts| ==> Due(ts[i], today)
    ensures |r| == |ts|
    ensures forall i :: 0 <= i < |ts| ==> r[i] == Reminder(ts[i], today)
  {
    if ts == [] then []
    else Reminders(ts[..|ts| - 1], today) + [Reminder(ts[|ts| - 1], today)]
  }

  /** One more task of the loop appends its reminder to what was already sent. */
  lemma RemindersStep(sent: seq<Notification>, ts: seq<Task>, i: nat, today: Day)
    requires i < |ts| && forall j :: 0 <= j < |ts| ==> Due(ts[j], today)
    ensures sent + Reminders(ts[..i + 1], today) == sent + Reminders(ts[..i], today) + [Reminder(ts[i], today)]
  {
    assert ts[..i + 1][..i] == ts[..i];
  }

  /** One reminder saved, then pushed. */
  method SaveAndPushReminder(db: Store, n: Notification)
    requires db.Valid()
    modifies db`notifications, db`pushes
    ensures db.Valid()
    ensures db.notifications == old(db.notifications) + [n] && db.pushes == old(db.pushes) + [n]
  {
    db.notifications := db.notifications + [n];
    NotificationService.Push(db, n);
  }

  /**
   * The loop of sendDueDateReminders over the tasks the query returned: each
   * reminder is saved, then pushed with its outcome swallowed, and counted.
   */
  method SendReminders(db: Store, upcoming: seq<Task>, today: Day) returns (sentCount: nat)
    requires db.Valid()
    requires forall i :: 0 <= i < |upcoming| ==> Due(upcoming[i], today)
    modifies db`notifications, db`pushes
    ensures db.Valid()
    ensures db.notifications == old(db.notifications) + Reminders(upcoming, today)
    ensures db.pushes == old(db.pushes) + Reminders(upcoming, today)
    ensures sentCount == |upcoming|
  {
    sentCount := 0;
    var i := 0;
    while i < |upcoming|
      invariant 0 <= i <= |upcoming|
      invariant db.Valid()
      invariant db.notifications == old(db.notifications) + Reminders(upcoming[..i], today)
      invariant db.pushes == old(db.pushes) + Reminders(upcoming[..i], today)
      invariant sentCount == i
    {
      var task := upcoming[i];
      RemindersStep(old(db.notifications), upcoming, i, today);
      RemindersStep(old(db.pushes), upcoming, i, today);
      if task.assignee.Some? {
        SaveAndPushReminder(db, Reminder(task, today));
        sentCount := sentCount + 1;
      }
      i := i + 1;
    }
    assert upcoming[..i] == upcoming;
  }

  /**
   * sendDueDateReminders: the tasks due in the window are read in whatever
   * order the query returns, and each gets its reminder. The count is the
   * number of reminders written.
   */
  method SendDueDateReminders(db: Store, today: Day) returns (sentCount: nat)
    requires db.Valid()
    modifies db`notifications, db`pushes
    ensures db.Valid()
    ensures sentCount == |set t | t in db.tasks.Values && Due(t, today)|
    ensures exists rows :: (
      Enumerates(rows, db.tasks)
      && var upcoming := TaskRepository.FindTasksDueBetween(rows, today, today + WINDOW_DAYS);
      && (forall i :: 0 <= i < |upcoming| ==> Due(upcoming[i], today))
      && (forall i, j :: 0 <= i < j < |upcoming| ==> upcoming[i] != upcoming[j])
      && db.notifications == old(db.notifications) + Reminders(upcoming, today)
      && db.pushes == old(db.pushes) + Reminders(upcoming, today)
      && sentCount == |upcoming|)
  {
    var rows := db.TaskRows();
    var upcoming := TaskRepository.FindTasksDueBetween(rows, today, today + WINDOW_DAYS);
    assert forall i :: 0 <= i < |upcoming| ==> Due(upcoming[i], today) by {
      forall i | 0 <= i < |upcoming| ensures Due(upcoming[i], today) {
        assert upcoming[i] in upcoming;
      }
    }
    DueListExact(rows, db.tasks, today);
    sentCount := SendReminders(db, upcoming, today);
  }

  /** A list without repeated elements has as many elements as its set. */
  lemma {:induction false} DistinctCount<T>(s: seq<T>)
    requires forall i, j :: 0 <= i < j < |s| ==> s[i] != s[j]
    ensures |set x | x in s| == |s|
  {
    if s != [] {
      var p := s[..|s| - 1];
      DistinctCount(p);
      assert (set x | x in s) == (set x | x in p) + {s[|s| - 1]};
      assert s[|s| - 1] !in (set x | x in p);
    }
  }

  /**
   * The query returns every due task of the table exactly once, so the loop
   * sends one reminder per due task.
   */
  lemma DueListExact(rows: seq<Task>, tasks: map<TaskId, Task>, today: Day)
    requires Enumerates(rows, tasks)
    ensures var r := TaskRepository.FindTasksDueBetween(rows, today, today + WINDOW_DAYS);
      (forall i, j :: 0 <= i < j < |r| ==> r[i] != r[j])
      && |r| == |set t | t in tasks.Values && Due(t, today)|
  {
    var r := TaskRepository.FindTasksDueBetween(rows, today, today + WINDOW_DAYS);
    assert forall i, j :: 0 <= i < j < |rows| ==> rows[i] != rows[j] by {
      forall i, j | 0 <= i < j < |rows| ensures rows[i] != rows[j] {
        assert rows[i].id != rows[j].id;
      }
    }
    NoRepeatsInSub(rows, r);
    DistinctCount(r);
    DueSetIsTableSet(rows, tasks, today, r);
  }

  lemma DueSetIsTableSet(rows: seq<Task>, tasks: map<TaskId, Task>, today: Day, r: seq<Task>)
    requires Enumerates(rows, tasks)
    requires forall t :: t in r <==> t in rows && Due(t, today)
    ensures (set x | x in r) == (set t | t in tasks.Values && Due(t, today))
  {
    forall t | t in tasks.Values && Due(t, today) ensures t in r {
      var k :| k in tasks && tasks[k] == t;
      var i :| 0 <= i < |rows| && rows[i].id == k;
    }
  }

  /** The three message forms by day count; a task due in three days reads "3일 후". */
  lemma MessageForms(title: string)
    ensures DueMessage(title, 3) == "'" + title + "' 태스크가 3일 후 마감입니다."
    ensures DueMessage(title, 0) != DueMessage(title, 1)
  {
    assert Decimal(3) == "3";
    var a := DueMessage(title, 0);
    var b := DueMessage(title, 1);
    assert a[|title| + 8] == '오' && b[|title| + 8] == '내';
  }

}
