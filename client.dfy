/** The board page of the web client (frontend/src/App.js): the columns it
    shows, the optimistic update after a drag and drop, the keyboard selection
    of a task, which server notices make it reload, and the guard on new task
    titles. */
module Client {
  import opened Wrappers
  import opened Text
  import opened Server

  /** The columns the board shows, left to right. `blog-publish`, which the
      server knows, is not among them. */
  const ColumnOrder: seq<string> := ["ideas", "backlog", "todo", "doing", "review", "done", "cancelled"]

  /** `COLUMN_ORDER.indexOf(status)`: the position of a column, or -1. */
  function IndexOf(status: string): (i: int)
    ensures -1 <= i < |ColumnOrder|
    ensures i >= 0 ==> ColumnOrder[i] == status && forall k :: 0 <= k < i ==> ColumnOrder[k] != status
    ensures i == -1 ==> status !in ColumnOrder
  {
    IndexFrom(status, 0)
  }

  function IndexFrom(status: string, k: nat): (i: int)
    requires k <= |ColumnOrder|
    ensures i == -1 || k <= i < |ColumnOrder|
    ensures i >= 0 ==> ColumnOrder[i] == status && forall j :: k <= j < i ==> ColumnOrder[j] != status
    ensures i == -1 ==> forall j :: k <= j < |ColumnOrder| ==> ColumnOrder[j] != status
    decreases |ColumnOrder| - k
  {
    if k == |ColumnOrder| then -1
    else if ColumnOrder[k] == status then k
    else IndexFrom(status, k + 1)
  }

  /** `tasks[column] && tasks[column].length > 0` */
  predicate HasTasks(tasks: map<string, seq<Task>>, column: string) {
    column in tasks && |tasks[column]| > 0
  }

  /** A selected task: the task, its column, and the indexes the client keeps
      with it. Every selection the board makes carries both indexes; a missing
      index is kept for generality and never moves the selection. */
  datatype Selection = Selection(task: Task, status: string, columnIndex: Option<int>, taskIndex: Option<int>)

  /** A drop position of the drag-and-drop library: a column and an index in it. */
  datatype Spot = Spot(column: string, index: int)

  /** The keys the selection can be moved with. */
  datatype Direction = Up | Down | Left | Right

  // ---------------------------------------------------------------- drag and drop

  /** The columns after the card at `i` of column `from` is dropped at `j` of
      column `to`: it is taken out first, then put in. */
  function Dragged(tasks: map<string, seq<Task>>, from: string, i: nat, to: string, j: nat): map<string, seq<Task>>
    requires from in tasks && to in tasks && i < |tasks[from]|
    requires if from == to then j < |tasks[from]| else j <= |tasks[to]|
  {
    var card := tasks[from][i];
    var left := tasks[from := tasks[from][..i] + tasks[from][i + 1..]];
    left[to := left[to][..j] + [card] + left[to][j..]]
  }

  /** A drop puts the dragged card at the drop index and leaves every other
      column as it was. */
  lemma {:induction false} DraggedShape(tasks: map<string, seq<Task>>, from: string, i: nat, to: string, j: nat)
    requires from in tasks && to in tasks && i < |tasks[from]|
    requires if from == to then j < |tasks[from]| else j <= |tasks[to]|
    ensures var after := Dragged(tasks, from, i, to, j);
            && after.Keys == tasks.Keys
            && |after[to]| > j && after[to][j] == tasks[from][i]
            && (forall c | c in tasks && c != from && c != to :: after[c] == tasks[c])
            && (from != to ==> after[from] == tasks[from][..i] + tasks[from][i + 1..])
  {
  }

  /** A drop within one column reorders it. */
  lemma {:induction false} DraggedWithin(tasks: map<string, seq<Task>>, c: string, i: nat, j: nat)
    requires c in tasks && i < |tasks[c]| && j < |tasks[c]|
    ensures multiset(Dragged(tasks, c, i, c, j)[c]) == multiset(tasks[c])
  {
    var column := tasks[c];
    var rest := column[..i] + column[i + 1..];
    assert column == column[..i] + [column[i]] + column[i + 1..];
    assert multiset(column) == multiset(rest) + multiset{column[i]};
    assert rest == rest[..j] + rest[j..];
    assert Dragged(tasks, c, i, c, j)[c] == rest[..j] + [column[i]] + rest[j..];
    assert multiset(rest[..j] + [column[i]] + rest[j..])
        == multiset(rest[..j]) + multiset{column[i]} + multiset(rest[j..]);
  }

  /** A drop into another column keeps every card of the two columns. */
  lemma {:induction false} DraggedAcross(tasks: map<string, seq<Task>>, from: string, i: nat, to: string, j: nat)
    requires from in tasks && to in tasks && from != to && i < |tasks[from]| && j <= |tasks[to]|
    ensures var after := Dragged(tasks, from, i, to, j);
            multiset(after[from]) + multiset(after[to]) == multiset(tasks[from]) + multiset(tasks[to])
  {
    var column := tasks[from];
    assert column == column[..i] + [column[i]] + column[i + 1..];
    assert tasks[to] == tasks[to][..j] + tasks[to][j..];
  }

  /** Dragging the card back to where it came from restores the board, which is
      what makes the move undoable. */
  lemma {:induction false} DraggedBack(tasks: map<string, seq<Task>>, from: string, i: nat, to: string, j: nat)
    requires from in tasks && to in tasks && i < |tasks[from]|
    requires if from == to then j < |tasks[from]| else j <= |tasks[to]|
    ensures var after := Dragged(tasks, from, i, to, j);
            Dragged(after, to, j, from, i) == tasks
  {
    var after := Dragged(tasks, from, i, to, j);
    var card := tasks[from][i];
    var column := tasks[from];
    assert column == column[..i] + [card] + column[i + 1..];
    var rest := column[..i] + column[i + 1..];
    if from == to {
      assert after[to] == rest[..j] + [card] + rest[j..];
      assert after[to][j] == card;
      assert after[to][..j] + after[to][j + 1..] == rest;
      assert rest[..i] + [card] + rest[i..] == column;
    } else {
      var target := tasks[to];
      assert after[to][j] == card;
      assert after[to][..j] + after[to][j + 1..] == target;
      assert after[from] == rest;
      assert rest[..i] + [card] + rest[i..] == column;
    }
    var back := Dragged(after, to, j, from, i);
    assert back.Keys == tasks.Keys;
    assert forall c | c in tasks :: back[c] == tasks[c];
  }

  // ---------------------------------------------------------------- the board

  /** The board page's state: the columns as last loaded (or optimistically
      changed) and the selected task. */
  class Board {
    var tasks: map<string, seq<Task>>
    var selected: Option<Selection>

    /** The page before the first load: four empty columns and no selection. */
    constructor ()
      ensures tasks == map["backlog" := [], "todo" := [], "doing" := [], "done" := []]
      ensures selected == None
    {
      tasks := map["backlog" := [], "todo" := [], "doing" := [], "done" := []];
      selected := None;
    }

    /** `handleDragEnd`: nothing happens without a destination or when the card
        is dropped where it was; otherwise the card moves at once and the move
        request to send is returned. The library gives a valid source index and
        a destination index that is valid once the card is taken out. */
    method HandleDragEnd(source: Spot, destination: Option<Spot>, id: string)
        returns (request: Option<(string, string, string)>)
      requires source.column in tasks && 0 <= source.index < |tasks[source.column]|
      requires destination.Some? ==>
                 var d := destination.value;
                 && d.column in tasks && 0 <= d.index
                 && if d.column == source.column then d.index < |tasks[d.column]| else d.index <= |tasks[d.column]|
      modifies this
      ensures selected == old(selected)
      ensures destination.None? || destination.value == source ==> request == None && tasks == old(tasks)
      ensures destination.Some? && destination.value != source ==>
                && request == Some((source.column, id, destination.value.column))
                && tasks == Dragged(old(tasks), source.column, source.index, destination.value.column, destination.value.index)
    {
      if destination.None? {
        return None;
      }
      var d := destination.value;
      if d.column == source.column && d.index == source.index {
        return None;
      }
      var fromColumn := tasks[source.column];
      var moved := fromColumn[source.index];
      tasks := tasks[source.column := fromColumn[..source.index] + fromColumn[source.index + 1..]];
      var toColumn := tasks[d.column];
      tasks := tasks[d.column := toColumn[..d.index] + [moved] + toColumn[d.index..]];
      request := Some((source.column, id, d.column));
    }

    /** `openFirstAvailableTask`: selects the first task of the first column, in
        board order, that has one; with every column empty nothing changes. The
        selection records column index 0 whichever column it is in. */
    method OpenFirstAvailableTask()
      modifies this
      ensures tasks == old(tasks)
      ensures FirstWithTasks(tasks, 0).Some? ==>
                var c := ColumnOrder[FirstWithTasks(tasks, 0).value];
                selected == Some(Selection(tasks[c][0], c, Some(0), Some(0)))
      ensures FirstWithTasks(tasks, 0).None? ==> selected == old(selected)
    {
      var i := 0;
      while i < |ColumnOrder|
        invariant 0 <= i <= |ColumnOrder|
        invariant FirstWithTasks(tasks, i) == FirstWithTasks(tasks, 0)
        invariant selected == old(selected)
      {
        var column := ColumnOrder[i];
        if HasTasks(tasks, column) {
          selected := Some(Selection(tasks[column][0], column, Some(0), Some(0)));
          return;
        }
        i := i + 1;
      }
    }

    /** `navigateTask`: up and down move within the column, left and right jump
        to the first task of the nearest column with tasks. Nothing changes
        without a selection or when there is nowhere to go. */
    method NavigateTask(direction: Direction)
      modifies this
      ensures tasks == old(tasks)
      ensures old(selected).None? ==> selected == None
      ensures old(selected).Some? && Navigate(tasks, old(selected).value, direction).Some? ==>
                selected == Navigate(tasks, old(selected).value, direction)
      ensures old(selected).Some? && Navigate(tasks, old(selected).value, direction).None? ==>
                selected == old(selected)
    {
      if selected.None? {
        return;
      }
      var s := selected.value;
      if direction == Up || direction == Down {
        var next := Vertical(tasks, s, direction);
        if next.Some? {
          selected := next;
        }
      } else {
        var current := IndexOf(s.status);
        var target;
        if direction == Left {
          target := SearchLeft(current);
        } else {
          target := SearchRight(current);
        }
        if target != current {
          var column := ColumnOrder[target];
          selected := Some(Selection(tasks[column][0], column, Some(target), Some(0)));
        }
      }
    }

    /** The loop of the left search: the nearest column left of `current` with
        tasks, or `current` when there is none. */
    method SearchLeft(current: int) returns (target: int)
      requires -1 <= current < |ColumnOrder|
      ensures target == current || (0 <= target < current && HasTasks(tasks, ColumnOrder[target]))
      ensures target == current ==> forall k :: 0 <= k < current ==> !HasTasks(tasks, ColumnOrder[k])
      ensures target != current ==> forall k :: target < k < current ==> !HasTasks(tasks, ColumnOrder[k])
    {
      target := current;
      var i := current - 1;
      while i >= 0
        invariant i == current - 1 || -1 <= i < current
        invariant forall k :: i < k < current ==> !HasTasks(tasks, ColumnOrder[k])
      {
        if HasTasks(tasks, ColumnOrder[i]) {
          target := i;
          return;
        }
        i := i - 1;
      }
    }

    /** The loop of the right search: the nearest column right of `current` with
        tasks, or `current` when there is none. */
    method SearchRight(current: int) returns (target: int)
      requires -1 <= current < |ColumnOrder|
      ensures target == current || (current < target < |ColumnOrder| && HasTasks(tasks, ColumnOrder[target]))
      ensures target == current ==> forall k :: current < k < |ColumnOrder| ==> !HasTasks(tasks, ColumnOrder[k])
      ensures target != current ==> forall k :: current < k < target ==> !HasTasks(tasks, ColumnOrder[k])
    {
      target := current;
      var i := current + 1;
      while i < |ColumnOrder|
        invariant current < i <= |ColumnOrder|
        invariant forall k :: current < k < i ==> !HasTasks(tasks, ColumnOrder[k])
      {
        if HasTasks(tasks, ColumnOrder[i]) {
          target := i;
          return;
        }
        i := i + 1;
      }
    }
  }

  /** The index of the first column, from position `k` of the board order on,
      that has tasks. */
  function FirstWithTasks(tasks: map<string, seq<Task>>, k: nat): (r: Option<nat>)
    requires k <= |ColumnOrder|
    ensures r.Some? ==> k <= r.value < |ColumnOrder| && HasTasks(tasks, ColumnOrder[r.value])
                        && forall j :: k <= j < r.value ==> !HasTasks(tasks, ColumnOrder[j])
    ensures r.None? ==> forall j :: k <= j < |ColumnOrder| ==> !HasTasks(tasks, ColumnOrder[j])
    decreases |ColumnOrder| - k
  {
    if k == |ColumnOrder| then None
    else if HasTasks(tasks, ColumnOrder[k]) then Some(k)
    else FirstWithTasks(tasks, k + 1)
  }

  /** The new selection after a key, if it changes. */
  function Navigate(tasks: map<string, seq<Task>>, s: Selection, direction: Direction): Option<Selection> {
    if direction == Up || direction == Down then Vertical(tasks, s, direction) else Sideways(tasks, s, direction)
  }

  /** The new selection after an up or down key, if it changes: the index moves
      one step, clamped to the column, and the selection changes only when the
      index differs and a task is there. A selection without a task index never
      moves. */
  function Vertical(tasks: map<string, seq<Task>>, s: Selection, direction: Direction): (r: Option<Selection>)
    requires direction == Up || direction == Down
    ensures var column := if s.status in tasks then tasks[s.status] else [];
            s.taskIndex.Some? ==>
              var i := s.taskIndex.value;
              var j := if direction == Up then StepUp(i) else StepDown(|column|, i);
              && (r.Some? <==> j != i && 0 <= j < |column|)
              && (r.Some? ==> r.value.taskIndex == Some(j))
    ensures s.taskIndex.None? ==> r.None?
    ensures r.Some? ==> var column := if s.status in tasks then tasks[s.status] else [];
                        && s.taskIndex.Some?
                        && r.value.taskIndex.Some?
                        && 0 <= r.value.taskIndex.value < |column|
                        && r.value.taskIndex.value != s.taskIndex.value
                        && r.value.task == column[r.value.taskIndex.value]
                        && r.value.status == s.status
                        && r.value.columnIndex == Some(IndexOf(s.status))
  {
    var column := if s.status in tasks then tasks[s.status] else [];
    match s.taskIndex
    case None => None
    case Some(i) =>
      var j := if direction == Up then StepUp(i) else StepDown(|column|, i);
      if j != i && 0 <= j < |column| then Some(Selection(column[j], s.status, Some(IndexOf(s.status)), Some(j)))
      else None
  }

  /** `Math.max(0, i - 1)` */
  function StepUp(i: int): (j: int)
    ensures j >= 0 && (j == i - 1 || j == 0)
    ensures i > 0 ==> j == i - 1
  {
    if i - 1 > 0 then i - 1 else 0
  }

  /** `Math.min(len - 1, i + 1)` */
  function StepDown(len: nat, i: int): (j: int)
    ensures j <= len - 1 && (j == i + 1 || j == len - 1)
    ensures i + 1 < len ==> j == i + 1
  {
    if len - 1 < i + 1 then len - 1 else i + 1
  }

  /** The new selection after a left or right key, if it changes: the first task
      of the nearest column in that direction that has tasks. */
  function Sideways(tasks: map<string, seq<Task>>, s: Selection, direction: Direction): (r: Option<Selection>)
    requires direction == Left || direction == Right
    ensures r.Some? ==> r.value.columnIndex.Some? && r.value.taskIndex == Some(0)
                        && var k := r.value.columnIndex.value;
                           && 0 <= k < |ColumnOrder|
                           && HasTasks(tasks, ColumnOrder[k])
                           && r.value.status == ColumnOrder[k]
                           && r.value.task == tasks[ColumnOrder[k]][0]
                           && (direction == Left ==>
                                 k < IndexOf(s.status) && forall m :: k < m < IndexOf(s.status) ==> !HasTasks(tasks, ColumnOrder[m]))
                           && (direction == Right ==>
                                 IndexOf(s.status) < k && forall m :: IndexOf(s.status) < m < k ==> !HasTasks(tasks, ColumnOrder[m]))
    ensures r.None? && direction == Left ==>
              forall m :: 0 <= m < IndexOf(s.status) ==> !HasTasks(tasks, ColumnOrder[m])
    ensures r.None? && direction == Right ==>
              forall m :: IndexOf(s.status) < m < |ColumnOrder| ==> !HasTasks(tasks, ColumnOrder[m])
  {
    var current := IndexOf(s.status);
    var target := if direction == Left then LastWithTasksBefore(tasks, current) else NextWithTasks(tasks, current + 1);
    match target
    case None => None
    case Some(k) => Some(Selection(tasks[ColumnOrder[k]][0], ColumnOrder[k], Some(k), Some(0)))
  }

  /** The nearest column left of position `k` that has tasks. */
  function LastWithTasksBefore(tasks: map<string, seq<Task>>, k: int): (r: Option<nat>)
    requires k <= |ColumnOrder|
    ensures r.Some? ==> r.value < k && HasTasks(tasks, ColumnOrder[r.value])
                        && forall m :: r.value < m < k ==> !HasTasks(tasks, ColumnOrder[m])
    ensures r.None? ==> forall m :: 0 <= m < k ==> !HasTasks(tasks, ColumnOrder[m])
    decreases k
  {
    if k <= 0 then None
    else if HasTasks(tasks, ColumnOrder[k - 1]) then Some(k - 1)
    else LastWithTasksBefore(tasks, k - 1)
  }

  /** The nearest column from position `k` on that has tasks. */
  function NextWithTasks(tasks: map<string, seq<Task>>, k: nat): (r: Option<nat>)
    requires k <= |ColumnOrder|
    ensures r.Some? ==> k <= r.value < |ColumnOrder| && HasTasks(tasks, ColumnOrder[r.value])
                        && forall m :: k <= m < r.value ==> !HasTasks(tasks, ColumnOrder[m])
    ensures r.None? ==> forall m :: k <= m < |ColumnOrder| ==> !HasTasks(tasks, ColumnOrder[m])
    decreases |ColumnOrder| - k
  {
    FirstWithTasks(tasks, k)
  }

  /** An in-range task index stays in range after an up or down key. */
  lemma {:induction false} VerticalStaysInRange(tasks: map<string, seq<Task>>, s: Selection, direction: Direction)
    requires direction == Up || direction == Down
    requires s.status in tasks && s.taskIndex.Some? && 0 <= s.taskIndex.value < |tasks[s.status]|
    ensures var n := Vertical(tasks, s, direction);
            n.Some? ==> n.value.taskIndex.Some? && 0 <= n.value.taskIndex.value < |tasks[s.status]|
  {
  }

  // ---------------------------------------------------------------- notices and creation

  /** The `onmessage` test: a notice of one of these three types reloads the
      board. */
  predicate ReloadsOn(kind: string) {
    kind == "file_change" || kind == "task_moved" || kind == "task_created"
  }

  /** Every notice the server sends reloads the board except `task_updated`. */
  lemma {:induction false} ReloadsOnAllButUpdates(n: Notice)
    ensures ReloadsOn(Kind(n)) <==> !n.TaskUpdated?
  {
  }

  /** `createTask`'s guard and request body: a title of only whitespace sends
      nothing; any other is sent trimmed. */
  function CreateRequest(title: string): (r: Option<string>)
    ensures r.None? <==> forall i :: 0 <= i < |title| ==> IsSpace(title[i])
    ensures r.Some? ==> r.value == Trim(title)
    ensures r.Some? ==> r.value != [] && !IsSpace(r.value[0]) && !IsSpace(r.value[|r.value| - 1])
  {
    TrimShape(title);
    if Trim(title) == [] then None else Some(Trim(title))
  }
}
