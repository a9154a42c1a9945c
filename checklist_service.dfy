/**
 * Checklist use cases. Every operation first finds the task or the item
 * (TASK_NOT_FOUND, CHECKLIST_ITEM_NOT_FOUND), then requires a membership, of
 * any role, in the task's workspace (WORKSPACE_ACCESS_DENIED). A new item is
 * numbered with the count of the task's items; deleting does not renumber;
 * reordering numbers the listed items by their position in the list.
 */
module ChecklistService {
  import opened Common
  import opened Members
  import opened Tasks
  import opened ChecklistItems
  import opened Entities
  import opened StoreState

  /** The workspace of a task, through its project. */
  function TaskWorkspace(tasks: map<TaskId, Task>, projects: map<ProjectId, Project>, t: TaskId): WorkspaceId
  {
    if t in tasks && tasks[t].project in projects then projects[tasks[t].project].workspace else 0
  }

  /** The items of a task. */
  function ItemsOf(checklist: map<ItemId, ChecklistItem>, t: TaskId): (r: set<ItemId>)
    ensures forall k :: k in r <==> k in checklist && checklist[k].task == t
  {
    set k | k in checklist && checklist[k].task == t
  }

  /** countByTaskId. */
  function ItemCount(checklist: map<ItemId, ChecklistItem>, t: TaskId): nat
  {
    |ItemsOf(checklist, t)|
  }

  /** The display orders the items of a task hold. */
  function OrdersOf(checklist: map<ItemId, ChecklistItem>, t: TaskId): (r: set<int>)
    ensures forall o :: o in r <==> exists k :: k in checklist && checklist[k].task == t && checklist[k].displayOrder == o
  {
    set k | k in checklist && checklist[k].task == t :: checklist[k].displayOrder
  }

  /** The positions 0 .. n - 1: the numbering of a checklist without gaps. */
  function Positions(n: nat): (r: set<int>)
    ensures forall o :: o in r <==> 0 <= o < n
  {
    if n == 0 then {} else Positions(n - 1) + {n - 1}
  }

  /** The check on a task: it exists, and the caller is a member of its workspace. */
  function TaskCheck(tasks: map<TaskId, Task>, projects: map<ProjectId, Project>, members: map<MemberId, WorkspaceMember>,
                     userId: UserId, t: TaskId): (r: Option<ErrorCode>)
    requires UniquePairs(members)
    ensures t !in tasks ==> r == Some(TaskNotFound)
    ensures t in tasks ==> (r.None? <==> exists k :: k in members && IsMembership(members[k], TaskWorkspace(tasks, projects, t), userId))
    ensures r.Some? ==> r.value == TaskNotFound || r.value == WorkspaceAccessDenied
  {
    if t !in tasks then Some(TaskNotFound)
    else Guard(members, TaskWorkspace(tasks, projects, t), userId, AnyRole, WorkspaceAccessDenied, WorkspaceAccessDenied)
  }

  /** The check on an item: it exists, and the caller is a member of its task's workspace. */
  function ItemCheck(checklist: map<ItemId, ChecklistItem>, tasks: map<TaskId, Task>, projects: map<ProjectId, Project>,
                     members: map<MemberId, WorkspaceMember>, userId: UserId, itemId: ItemId): (r: Option<ErrorCode>)
    requires UniquePairs(members)
    ensures itemId !in checklist ==> r == Some(ChecklistItemNotFound)
    ensures itemId in checklist ==>
      (r.None? <==> exists k :: k in members && IsMembership(members[k], TaskWorkspace(tasks, projects, checklist[itemId].task), userId))
    ensures r.Some? ==> r.value == ChecklistItemNotFound || r.value == WorkspaceAccessDenied
  {
    if itemId !in checklist then Some(ChecklistItemNotFound)
    else Guard(members, TaskWorkspace(tasks, projects, checklist[itemId].task), userId, AnyRole,
               WorkspaceAccessDenied, WorkspaceAccessDenied)
  }

  /**
   * addItem: a new, open item at the end of the task's list, numbered with the
   * number of items the task already has.
   */
  method AddItem(db: Store, userId: UserId, taskId: TaskId, content: string) returns (r: Result<ChecklistItem>)
    requires db.Valid()
    modifies db`checklist, db`nextId
    ensures db.Valid()
    ensures var c := TaskCheck(db.tasks, db.projects, db.members, userId, taskId);
      (c.Some? ==> r == Err(c.value) && db.checklist == old(db.checklist))
      && (c.None? ==> r.Ok? && r.value.id !in old(db.checklist)
                      && r.value == ChecklistItem(r.value.id, taskId, content, false, ItemCount(old(db.checklist), taskId))
                      && db.checklist == old(db.checklist)[r.value.id := r.value])
  {
    var c := TaskCheck(db.tasks, db.projects, db.members, userId, taskId);
    if c.Some? { return Err(c.value); }
    var nextOrder := ItemCount(db.checklist, taskId);
    var id := db.NewId();
    var item := ChecklistItem(id, taskId, content, false, nextOrder);
    db.checklist := db.checklist[id := item];
    r := Ok(item);
  }

  /**
   * A task numbered without gaps stays so when an item is added: the new
   * item takes the first free position.
   */
  lemma AddKeepsNumbering(checklist: map<ItemId, ChecklistItem>, t: TaskId, id: ItemId, content: string)
    requires id !in checklist
    requires OrdersOf(checklist, t) == Positions(ItemCount(checklist, t))
    ensures var after := checklist[id := ChecklistItem(id, t, content, false, ItemCount(checklist, t))];
      ItemCount(after, t) == ItemCount(checklist, t) + 1
      && OrdersOf(after, t) == Positions(ItemCount(after, t))
  {
    var n := ItemCount(checklist, t);
    var item := ChecklistItem(id, t, content, false, n);
    var after := checklist[id := item];
    assert ItemsOf(after, t) == ItemsOf(checklist, t) + {id};
    OrdersAfterAdd(checklist, item);
    assert Positions(n + 1) == Positions(n) + {n};
  }

  /** Adding an item of task t adds its order to t's orders. */
  lemma OrdersAfterAdd(checklist: map<ItemId, ChecklistItem>, item: ChecklistItem)
    requires item.id !in checklist
    ensures OrdersOf(checklist[item.id := item], item.task) == OrdersOf(checklist, item.task) + {item.displayOrder}
  {
    var after := checklist[item.id := item];
    var t := item.task;
    forall o | o in OrdersOf(after, t) ensures o in OrdersOf(checklist, t) + {item.displayOrder} {
      var k :| k in after && after[k].task == t && after[k].displayOrder == o;
      if k != item.id { assert checklist[k] == after[k]; }
    }
    forall o | o in OrdersOf(checklist, t) ensures o in OrdersOf(after, t) {
      var k :| k in checklist && checklist[k].task == t && checklist[k].displayOrder == o;
      assert after[k] == checklist[k];
    }
    assert after[item.id].displayOrder in OrdersOf(after, t);
  }

  /**
   * Deleting does not renumber, so an item added after a deletion can take the
   * position of an item still there: of orders 0, 1, 2, deleting 0 leaves two
   * items and the next item is numbered 2 again.
   */
  lemma AddAfterDeleteRepeatsOrder()
    ensures var before := map[1 := ChecklistItem(1, 7, "a", false, 0), 2 := ChecklistItem(2, 7, "b", false, 1),
                              3 := ChecklistItem(3, 7, "c", false, 2)];
      var left := Without(before, {1});
      ItemCount(left, 7) == 2 && 3 in left && left[3].displayOrder == ItemCount(left, 7)
  {
    var before := map[1 := ChecklistItem(1, 7, "a", false, 0), 2 := ChecklistItem(2, 7, "b", false, 1),
                      3 := ChecklistItem(3, 7, "c", false, 2)];
    var left := Without(before, {1});
    assert ItemsOf(left, 7) == {2, 3};
  }

  /** Orders the checklist finder's rows: a may come before b. */
  predicate OrderedBefore(a: ChecklistItem, b: ChecklistItem)
  {
    a.displayOrder <= b.displayOrder
  }

  predicate SortedByOrder(s: seq<ChecklistItem>)
  {
    forall i, j :: 0 <= i < j < |s| ==> OrderedBefore(s[i], s[j])
  }

  /** The head of a sorted list may come before every row of it. */
  lemma HeadBeforeAll(s: seq<ChecklistItem>)
    requires SortedByOrder(s) && s != []
    ensures forall y :: y in s ==> OrderedBefore(s[0], y)
  {
    forall y | y in s ensures OrderedBefore(s[0], y) { var j :| 0 <= j < |s| && s[j] == y; if j > 0 { } }
  }

  /** The head of a sorted list may come before x and every row of its tail. */
  lemma HeadBeforeRest(s: seq<ChecklistItem>, x: ChecklistItem, rest: seq<ChecklistItem>)
    requires SortedByOrder(s) && s != [] && OrderedBefore(s[0], x)
    requires forall y :: y in rest ==> y == x || y in s[1..]
    ensures forall y :: y in rest ==> OrderedBefore(s[0], y)
  {
    HeadBeforeAll(s);
  }

  function InsertByOrder(x: ChecklistItem, s: seq<ChecklistItem>): (r: seq<ChecklistItem>)
    requires SortedByOrder(s)
    ensures SortedByOrder(r)
    ensures multiset(r) == multiset(s) + multiset{x}
    ensures forall y :: y in r ==> y == x || y in s
  {
    if s == [] then [x]
    else if OrderedBefore(x, s[0]) then
      HeadBeforeAll(s);
      [x] + s
    else
      var rest := InsertByOrder(x, s[1..]);
      HeadBeforeRest(s, x, rest);
      assert s == [s[0]] + s[1..];
      [s[0]] + rest
  }

  /** ORDER BY displayOrder ASC: a sorted permutation of the rows. */
  function SortByOrder(s: seq<ChecklistItem>): (r: seq<ChecklistItem>)
    ensures SortedByOrder(r)
    ensures multiset(r) == multiset(s)
  {
    if s == [] then []
    else
      assert s == s[..|s| - 1] + [s[|s| - 1]];
      InsertByOrder(s[|s| - 1], SortByOrder(s[..|s| - 1]))
  }

  /** The task's items read by ascending key: all of them, each once. */
  lemma ItemsOfTask(checklist: map<ItemId, ChecklistItem>, keys: seq<nat>, taskId: TaskId)
    requires forall k :: k in checklist ==> checklist[k].id == k
    requires forall k :: k in keys <==> k in checklist && checklist[k].task == taskId
    requires forall i, j :: 0 <= i < j < |keys| ==> keys[i] < keys[j]
    ensures forall x :: x in RowsAt(checklist, keys) <==> x in checklist.Values && x.task == taskId
    ensures forall i, j :: 0 <= i < j < |RowsAt(checklist, keys)| ==> RowsAt(checklist, keys)[i].id != RowsAt(checklist, keys)[j].id
  {
    var rows := RowsAt(checklist, keys);
    assert forall i :: 0 <= i < |rows| ==> rows[i].id == keys[i];
    forall x | x in checklist.Values && x.task == taskId ensures x in rows {
      var k :| k in checklist && checklist[k] == x;
      var i :| 0 <= i < |keys| && keys[i] == k;
      assert rows[i] == x;
    }
  }

  /** Sorting by display order keeps the rows, so it keeps their ids apart. */
  lemma SortKeepsItems(rows: seq<ChecklistItem>)
    ensures forall x :: x in SortByOrder(rows) <==> x in rows
    ensures (forall i, j :: 0 <= i < j < |rows| ==> rows[i].id != rows[j].id) ==>
      forall i, j :: 0 <= i < j < |SortByOrder(rows)| ==> SortByOrder(rows)[i].id != SortByOrder(rows)[j].id
  {
    var sorted := SortByOrder(rows);
    forall x ensures x in sorted <==> x in rows {
      assert x in sorted <==> x in multiset(sorted);
      assert x in rows <==> x in multiset(rows);
    }
    if forall i, j :: 0 <= i < j < |rows| ==> rows[i].id != rows[j].id {
      DistinctKeysInSub(rows, sorted, (x: ChecklistItem) => x.id);
    }
  }

  /** getItems: the task's items in ascending display order. */
  method GetItems(db: Store, userId: UserId, taskId: TaskId) returns (r: Result<seq<ChecklistItem>>)
    requires db.Valid()
    ensures var c := TaskCheck(db.tasks, db.projects, db.members, userId, taskId);
      (c.Some? ==> r == Err(c.value)) && (c.None? ==> r.Ok?)
    ensures r.Ok? ==> SortedByOrder(r.value)
    ensures r.Ok? ==> forall x :: x in r.value <==> x in db.checklist.Values && x.task == taskId
    ensures r.Ok? ==> forall i, j :: 0 <= i < j < |r.value| ==> r.value[i].id != r.value[j].id
  {
    var c := TaskCheck(db.tasks, db.projects, db.members, userId, taskId);
    if c.Some? { return Err(c.value); }
    var keys := KeysInOrder(db.checklist, (x: ChecklistItem) => x.task == taskId, db.nextId, false);
    ItemsOfTask(db.checklist, keys, taskId);
    SortKeepsItems(RowsAt(db.checklist, keys));
    r := Ok(SortByOrder(RowsAt(db.checklist, keys)));
  }

  /** updateItem: the item's content is replaced; nothing else changes. */
  method UpdateItem(db: Store, userId: UserId, itemId: ItemId, content: string) returns (r: Result<ChecklistItem>)
    requires db.Valid()
    modifies db`checklist
    ensures db.Valid()
    ensures var c := ItemCheck(old(db.checklist), db.tasks, db.projects, db.members, userId, itemId);
      (c.Some? ==> r == Err(c.value) && db.checklist == old(db.checklist))
      && (c.None? ==> itemId in old(db.checklist) && r == Ok(old(db.checklist)[itemId].Update(content))
                      && db.checklist == old(db.checklist)[itemId := r.value])
  {
    var c := ItemCheck(db.checklist, db.tasks, db.projects, db.members, userId, itemId);
    if c.Some? { return Err(c.value); }
    var item := db.checklist[itemId].Update(content);
    db.checklist := db.checklist[itemId := item];
    r := Ok(item);
  }

  /** toggleItem: the item's completion flag flips; nothing else changes. */
  method ToggleItem(db: Store, userId: UserId, itemId: ItemId) returns (r: Result<ChecklistItem>)
    requires db.Valid()
    modifies db`checklist
    ensures db.Valid()
    ensures var c := ItemCheck(old(db.checklist), db.tasks, db.projects, db.members, userId, itemId);
      (c.Some? ==> r == Err(c.value) && db.checklist == old(db.checklist))
      && (c.None? ==> itemId in old(db.checklist) && r == Ok(old(db.checklist)[itemId].ToggleComplete())
                      && r.value.isCompleted == !old(db.checklist)[itemId].isCompleted
                      && db.checklist == old(db.checklist)[itemId := r.value])
  {
    var c := ItemCheck(db.checklist, db.tasks, db.projects, db.members, userId, itemId);
    if c.Some? { return Err(c.value); }
    var item := db.checklist[itemId].ToggleComplete();
    db.checklist := db.checklist[itemId := item];
    r := Ok(item);
  }

  /** deleteItem: the item goes; the others keep their display orders. */
  method DeleteItem(db: Store, userId: UserId, itemId: ItemId) returns (r: Option<ErrorCode>)
    requires db.Valid()
    modifies db`checklist
    ensures db.Valid()
    ensures var c := ItemCheck(old(db.checklist), db.tasks, db.projects, db.members, userId, itemId);
      r == c && (c.Some? ==> db.checklist == old(db.checklist))
      && (c.None? ==> db.checklist == Without(old(db.checklist), {itemId}))
  {
    r := ItemCheck(db.checklist, db.tasks, db.projects, db.members, userId, itemId);
    if r.Some? { return; }
    db.checklist := Without(db.checklist, {itemId});
  }

  /**
   * The checklist after the items of ids took their positions in turn: each
   * listed item carries the position of its last occurrence, whatever task it
   * belongs to; unlisted items and every other column are untouched.
   */
  function Reordered(m: map<ItemId, ChecklistItem>, ids: seq<ItemId>): (r: map<ItemId, ChecklistItem>)
    requires forall i :: 0 <= i < |ids| ==> ids[i] in m
    ensures r.Keys == m.Keys
    ensures forall k :: k in m ==> r[k] == m[k].UpdateOrder(r[k].displayOrder)
    ensures forall k :: k in m && k !in ids ==> r[k] == m[k]
  {
    if ids == [] then m
    else
      var prev := Reordered(m, ids[..|ids| - 1]);
      var last := ids[|ids| - 1];
      prev[last := prev[last].UpdateOrder(|ids| - 1)]
  }

  /** A listed item ends at the position of its last occurrence in the list. */
  lemma {:induction false} ReorderedPosition(m: map<ItemId, ChecklistItem>, ids: seq<ItemId>, i: nat)
    requires forall j :: 0 <= j < |ids| ==> ids[j] in m
    requires i < |ids| && forall j :: i < j < |ids| ==> ids[j] != ids[i]
    ensures Reordered(m, ids)[ids[i]].displayOrder == i
  {
    if i < |ids| - 1 {
      ReorderedPosition(m, ids[..|ids| - 1], i);
    }
  }

  /**
   * reorderItems: after the task check, each listed id in turn is looked up
   * (CHECKLIST_ITEM_NOT_FOUND) and given its index as display order. An
   * unknown id anywhere in the list rolls back the orders already set. The
   * listed items are not checked to belong to the task.
   */
  method ReorderItems(db: Store, userId: UserId, taskId: TaskId, itemIds: seq<ItemId>) returns (r: Option<ErrorCode>)
    requires db.Valid()
    modifies db`checklist
    ensures db.Valid()
    ensures var c := TaskCheck(db.tasks, db.projects, db.members, userId, taskId);
      var known := forall i :: 0 <= i < |itemIds| ==> itemIds[i] in old(db.checklist);
      (c.Some? ==> r == c && db.checklist == old(db.checklist))
      && (c.None? && !known ==> r == Some(ChecklistItemNotFound) && db.checklist == old(db.checklist))
      && (c.None? && known ==> r.None? && db.checklist == Reordered(old(db.checklist), itemIds))
  {
    r := TaskCheck(db.tasks, db.projects, db.members, userId, taskId);
    if r.Some? { return; }
    var before := db.checklist;
    var i := 0;
    while i < |itemIds|
      invariant 0 <= i <= |itemIds|
      invariant forall j :: 0 <= j < i ==> itemIds[j] in before
      invariant db.checklist == Reordered(before, itemIds[..i])
      invariant db.Valid()
    {
      if itemIds[i] !in db.checklist {
        db.checklist := before;
        return Some(ChecklistItemNotFound);
      }
      var item := db.checklist[itemIds[i]].UpdateOrder(i);
      ReorderedStep(before, itemIds, i);
      ReorderedStaysValid(db.checklist, item, db.tasks, db.nextId);
      db.checklist := db.checklist[itemIds[i] := item];
      i := i + 1;
    }
    assert itemIds[..i] == itemIds;
  }

  /** Taking one more id of the list sets that item's order to its index. */
  lemma ReorderedStep(m: map<ItemId, ChecklistItem>, ids: seq<ItemId>, i: nat)
    requires i < |ids| && forall j :: 0 <= j <= i ==> ids[j] in m
    ensures var prev := Reordered(m, ids[..i]);
      Reordered(m, ids[..i + 1]) == prev[ids[i] := prev[ids[i]].UpdateOrder(i)]
  {
    assert ids[..i + 1][..i] == ids[..i];
  }

  /** A new display order keeps the checklist table's constraints. */
  lemma ReorderedStaysValid(checklist: map<ItemId, ChecklistItem>, item: ChecklistItem, tasks: map<TaskId, Task>, next: nat)
    requires ItemsOk(checklist, tasks, next) && item.id in checklist
    requires item == checklist[item.id].UpdateOrder(item.displayOrder)
    ensures ItemsOk(checklist[item.id := item], tasks, next)
  {
  }

  /**
   * Reordering with a list of exactly the task's items, each once, numbers
   * the task's items without gaps: 0 .. n - 1 in list order.
   */
  lemma ReorderNumbersTheTask(m: map<ItemId, ChecklistItem>, t: TaskId, ids: seq<ItemId>)
    requires forall i, j :: 0 <= i < j < |ids| ==> ids[i] != ids[j]
    requires forall k :: k in ids <==> k in m && m[k].task == t
    ensures OrdersOf(Reordered(m, ids), t) == Positions(|ids|)
  {
    var r := Reordered(m, ids);
    forall o | o in Positions(|ids|) ensures o in OrdersOf(r, t) {
      assert ids[o] in ids;
      ReorderedPosition(m, ids, o);
      assert r[ids[o]].task == t;
    }
    forall o | o in OrdersOf(r, t) ensures o in Positions(|ids|) {
      var k :| k in r && r[k].task == t && r[k].displayOrder == o;
      assert k in ids;
      var i :| 0 <= i < |ids| && ids[i] == k;
      ReorderedPosition(m, ids, i);
    }
  }
}
