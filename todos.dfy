/**
 * The to-do record and the two views the page derives from the list: the
 * counters of updateStats and the choice, row by row, between the display
 * template and the edit template.
 */
module Todos {

  /**
   * One task. `id` is the millisecond clock reading and `createdAt` the ISO
   * timestamp taken when it was added; neither is guaranteed unique.
   */
  datatype Todo = Todo(id: int, text: string, completed: bool, createdAt: string)

  /** The record with its completion flag set to `done`, as the checkbox handler writes it. */
  function WithCompleted(t: Todo, done: bool): (u: Todo)
    ensures u.completed == done
    ensures u.id == t.id && u.text == t.text && u.createdAt == t.createdAt
  {
    t.(completed := done)
  }

  /** The list with the record at `index` spliced out. */
  function RemoveAt(todos: seq<Todo>, index: nat): (r: seq<Todo>)
    requires index < |todos|
    ensures |r| == |todos| - 1
    ensures forall j :: 0 <= j < index ==> r[j] == todos[j]
    ensures forall j :: index <= j < |r| ==> r[j] == todos[j + 1]
  {
    todos[..index] + todos[index + 1..]
  }

  // ---------------------------------------------------------------------
  // Counters (updateStats)
  // ---------------------------------------------------------------------

  /** `todos.filter(todo => todo.completed)`: the completed records, in list order. */
  function CompletedOnes(todos: seq<Todo>): (r: seq<Todo>)
    ensures |r| <= |todos|
    ensures forall k :: 0 <= k < |r| ==> r[k].completed && r[k] in todos
  {
    if todos == [] then []
    else
      var init := todos[..|todos| - 1];
      var last := todos[|todos| - 1];
      assert forall t :: t in init ==> t in todos;
      CompletedOnes(init) + (if last.completed then [last] else [])
  }

  /** The positions of the completed records: an index-based reading of the filter. */
  ghost function CompletedPositions(todos: seq<Todo>): set<int>
  {
    set i | 0 <= i < |todos| && todos[i].completed
  }

  /** The counters shown above the list, and whether the empty-state panel is visible. */
  datatype Stats = Stats(total: nat, completed: nat, active: nat, showEmpty: bool)

  /** updateStats: total, completed by filtering, active by subtraction. */
  function StatsOf(todos: seq<Todo>): (st: Stats)
    ensures st.total == |todos|
    ensures st.completed == |CompletedPositions(todos)|
    ensures st.active + st.completed == st.total
    ensures st.showEmpty <==> todos == []
  {
    var completed := |CompletedOnes(todos)|;
    CompletedCountIsPositionCount(todos);
    Stats(|todos|, completed, |todos| - completed, |todos| == 0)
  }

  /** The filter keeps exactly one record per completed position. */
  lemma {:induction false} CompletedCountIsPositionCount(todos: seq<Todo>)
    ensures |CompletedOnes(todos)| == |CompletedPositions(todos)|
    decreases |todos|
  {
    if todos != [] {
      var n := |todos| - 1;
      CompletedCountIsPositionCount(todos[..n]);
      PositionsOfLast(todos);
    }
  }

  /** Extending the list by one record adds its position iff it is completed. */
  lemma PositionsOfLast(todos: seq<Todo>)
    requires todos != []
    ensures var n := |todos| - 1;
      CompletedPositions(todos) ==
        CompletedPositions(todos[..n]) + (if todos[n].completed then {n} else {})
    ensures |todos| - 1 !in CompletedPositions(todos[..|todos| - 1])
  {
    var n := |todos| - 1;
    var init := todos[..n];
    forall i | 0 <= i < n
      ensures todos[i] == init[i]
    {
    }
  }

  /** Filtering a concatenation filters each part. */
  lemma {:induction false} CompletedOnesAppend(a: seq<Todo>, b: seq<Todo>)
    ensures CompletedOnes(a + b) == CompletedOnes(a) + CompletedOnes(b)
    decreases |b|
  {
    if b == [] {
      assert a + b == a;
    } else {
      var n := |b| - 1;
      assert (a + b)[..|a + b| - 1] == a + b[..n];
      CompletedOnesAppend(a, b[..n]);
    }
  }

  /** Splitting the list around position `i`. */
  lemma SplitAt(todos: seq<Todo>, i: nat)
    requires i < |todos|
    ensures todos == todos[..i] + [todos[i]] + todos[i + 1..]
  {
  }

  /** Adding an unchecked record raises the total and the active count by one. */
  lemma StatsAfterAdd(todos: seq<Todo>, t: Todo)
    requires !t.completed
    ensures StatsOf(todos + [t]).total == StatsOf(todos).total + 1
    ensures StatsOf(todos + [t]).completed == StatsOf(todos).completed
    ensures StatsOf(todos + [t]).active == StatsOf(todos).active + 1
    ensures !StatsOf(todos + [t]).showEmpty
  {
    assert (todos + [t])[..|todos|] == todos;
  }

  /** Setting one checkbox moves that record, and only it, between active and completed. */
  lemma {:induction false} StatsAfterSetCompleted(todos: seq<Todo>, i: nat, done: bool)
    requires i < |todos|
    ensures var after := StatsOf(todos[i := WithCompleted(todos[i], done)]);
      after.total == StatsOf(todos).total &&
      after.completed == StatsOf(todos).completed
                         - (if todos[i].completed then 1 else 0) + (if done then 1 else 0)
  {
    var u := todos[i := WithCompleted(todos[i], done)];
    SplitAt(todos, i);
    SplitAt(u, i);
    assert u[..i] == todos[..i] && u[i + 1..] == todos[i + 1..];
    CompletedOnesAppend(todos[..i] + [todos[i]], todos[i + 1..]);
    CompletedOnesAppend(todos[..i], [todos[i]]);
    CompletedOnesAppend(u[..i] + [u[i]], u[i + 1..]);
    CompletedOnesAppend(u[..i], [u[i]]);
    assert CompletedOnes([todos[i]]) == if todos[i].completed then [todos[i]] else [];
    assert CompletedOnes([u[i]]) == if done then [u[i]] else [];
  }

  /** Deleting a record lowers the total by one and the completed count by one iff it was completed. */
  lemma {:induction false} StatsAfterRemove(todos: seq<Todo>, i: nat)
    requires i < |todos|
    ensures var after := StatsOf(RemoveAt(todos, i));
      after.total == StatsOf(todos).total - 1 &&
      after.completed == StatsOf(todos).completed - (if todos[i].completed then 1 else 0) &&
      (after.showEmpty <==> |todos| == 1)
  {
    SplitAt(todos, i);
    CompletedOnesAppend(todos[..i] + [todos[i]], todos[i + 1..]);
    CompletedOnesAppend(todos[..i], [todos[i]]);
    CompletedOnesAppend(todos[..i], todos[i + 1..]);
    assert CompletedOnes([todos[i]]) == if todos[i].completed then [todos[i]] else [];
  }

  // ---------------------------------------------------------------------
  // Row templates (updateTodoList / createTodoItem)
  // ---------------------------------------------------------------------

  /**
   * What one rendered row shows: the display template (checkbox, text, edit
   * and delete buttons) or the edit template (input pre-filled with the
   * text, save and cancel buttons), for the record at `index`.
   */
  datatype Row = DisplayRow(todo: Todo, index: nat) | EditRow(todo: Todo, index: nat)

  /** createTodoItem: the edit template exactly when the row's index is the cursor. */
  function RowFor(todo: Todo, index: nat, editingIndex: int): (row: Row)
    ensures row.todo == todo && row.index == index
    ensures row.EditRow? <==> editingIndex == index
  {
    if editingIndex == index then EditRow(todo, index) else DisplayRow(todo, index)
  }

  /** updateTodoList: one row per record, in list order. */
  function Render(todos: seq<Todo>, editingIndex: int): (rows: seq<Row>)
    ensures |rows| == |todos|
    ensures forall j :: 0 <= j < |rows| ==> rows[j].todo == todos[j] && rows[j].index == j
    ensures forall j :: 0 <= j < |rows| ==> (rows[j].EditRow? <==> j == editingIndex)
  {
    seq(|todos|, j requires 0 <= j < |todos| => RowFor(todos[j], j, editingIndex))
  }

  /** How many rows use the edit template. */
  function EditRowCount(rows: seq<Row>): nat
  {
    if rows == [] then 0
    else EditRowCount(rows[..|rows| - 1]) + (if rows[|rows| - 1].EditRow? then 1 else 0)
  }

  /**
   * At most one row is ever in edit mode, and exactly one when the cursor
   * points into the list.
   */
  lemma {:induction false} AtMostOneEditRow(todos: seq<Todo>, editingIndex: int)
    ensures EditRowCount(Render(todos, editingIndex)) == (if 0 <= editingIndex < |todos| then 1 else 0)
    decreases |todos|
  {
    if todos != [] {
      var n := |todos| - 1;
      var rows := Render(todos, editingIndex);
      AtMostOneEditRow(todos[..n], editingIndex);
      assert rows[..n] == Render(todos[..n], editingIndex);
    }
  }

  /**
   * Deleting a row leaves the cursor where it was, so when the deleted row
   * lay before the row being edited, the edit template moves on to the
   * record that followed it, or disappears when the edited row was last.
   */
  lemma {:induction false} EditRowAfterRemove(todos: seq<Todo>, i: nat, editingIndex: int)
    requires i < editingIndex < |todos|
    ensures var rows := Render(RemoveAt(todos, i), editingIndex);
      (editingIndex < |todos| - 1 ==> rows[editingIndex] == EditRow(todos[editingIndex + 1], editingIndex)) &&
      (editingIndex == |todos| - 1 ==> EditRowCount(rows) == 0)
  {
    AtMostOneEditRow(RemoveAt(todos, i), editingIndex);
  }
}
