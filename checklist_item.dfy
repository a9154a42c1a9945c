/** A checklist item of a task: content, completion flag and display position. */
module ChecklistItems {
  import opened Common

  datatype ChecklistItem = ChecklistItem(id: ItemId, task: TaskId, content: string, isCompleted: bool, displayOrder: int)
  {
    function Update(newContent: string): (i: ChecklistItem)
      ensures i.content == newContent && i.(content := content) == this
    {
      this.(content := newContent)
    }

    function ToggleComplete(): (i: ChecklistItem)
      ensures i.isCompleted == !isCompleted && i.(isCompleted := isCompleted) == this
    {
      this.(isCompleted := !isCompleted)
    }

    function Complete(): (i: ChecklistItem)
      ensures i.isCompleted && i.(isCompleted := isCompleted) == this
    {
      this.(isCompleted := true)
    }

    function Uncomplete(): (i: ChecklistItem)
      ensures !i.isCompleted && i.(isCompleted := isCompleted) == this
    {
      this.(isCompleted := false)
    }

    function UpdateOrder(order: int): (i: ChecklistItem)
      ensures i.displayOrder == order && i.(displayOrder := displayOrder) == this
    {
      this.(displayOrder := order)
    }
  }

  /** Toggling twice gives the item back; complete and uncomplete are idempotent and undo a toggle. */
  lemma ToggleLaws(i: ChecklistItem)
    ensures i.ToggleComplete().ToggleComplete() == i
    ensures i.Complete().Complete() == i.Complete() && i.Uncomplete().Uncomplete() == i.Uncomplete()
    ensures i.isCompleted ==> i.ToggleComplete() == i.Uncomplete()
    ensures !i.isCompleted ==> i.ToggleComplete() == i.Complete()
  {
  }
}
