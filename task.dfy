/**
 * The task entity: its columns, its builder defaults and the four mutators the
 * services call (updateInfo, changeStatus, assignTo, changeOrder).
 */
module Tasks {
  import opened Common
  import opened BaseEntity

  datatype Status = Todo | InProgress | Review | Done

  /** Enum.name() of a status, as it is written into activity details. */
  function StatusName(s: Status): string
  {
    match s
      case Todo => "TODO"
      case InProgress => "IN_PROGRESS"
      case Review => "REVIEW"
      case Done => "DONE"
  }

  /** Distinct statuses have distinct names, so a name identifies its status. */
  lemma StatusNamesDistinct(a: Status, b: Status)
    ensures StatusName(a) == StatusName(b) ==> a == b
  {
  }

  /** The priority enum is only known to contain MEDIUM, its column default. */
  datatype Priority = Priority(name: string)
  const MEDIUM: Priority := Priority("MEDIUM")

  datatype Task = Task(
    id: TaskId,
    title: string,
    description: Option<string>,
    status: Status,
    priority: Option<Priority>,
    project: ProjectId,
    assignee: Option<UserId>,
    createdBy: UserId,
    dueDate: Option<Day>,
    displayOrder: int,
    labels: set<LabelId>,
    life: Lifecycle)
  {
    /** The columns declared NOT NULL that can be null in memory: priority. */
    predicate NotNullColumnsSet() { priority.Some? }

    /** Title, description, priority and due date are overwritten, absent values included. */
    function UpdateInfo(newTitle: string, newDescription: Option<string>, newPriority: Option<Priority>, newDueDate: Option<Day>)
      : (t: Task)
      ensures t.title == newTitle && t.description == newDescription
      ensures t.priority == newPriority && t.dueDate == newDueDate
      ensures t.(title := title, description := description, priority := priority, dueDate := dueDate) == this
    {
      this.(title := newTitle, description := newDescription, priority := newPriority, dueDate := newDueDate)
    }

    function ChangeStatus(newStatus: Status): (t: Task)
      ensures t.status == newStatus && t.(status := status) == this
    {
      this.(status := newStatus)
    }

    function AssignTo(user: Option<UserId>): (t: Task)
      ensures t.assignee == user && t.(assignee := assignee) == this
    {
      this.(assignee := user)
    }

    function ChangeOrder(order: int): (t: Task)
      ensures t.displayOrder == order && t.(displayOrder := displayOrder) == this
    {
      this.(displayOrder := order)
    }
  }

  /** A task fresh from the builder: TODO, MEDIUM and order 0 are its defaults. */
  function NewTask(id: TaskId, title: string, project: ProjectId, createdBy: UserId, now: Time): (t: Task)
    ensures t.status == Todo && t.priority == Some(MEDIUM) && t.displayOrder == 0
    ensures t.assignee == None && t.dueDate == None && t.labels == {}
    ensures t.life.Consistent() && !t.life.isDeleted && t.life.createdAt == now
    ensures t.NotNullColumnsSet()
  {
    Task(id, title, None, Todo, Some(MEDIUM), project, None, createdBy, None, 0, {}, Created(now))
  }
}
