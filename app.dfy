/**
 * The TodoApp controller: the list of records and the edit cursor, and the
 * handlers that change them. Each handler returns the notice the page shows
 * for it (the banner's own timing is not modelled).
 */
module App {
  import opened TextRules
  import opened Todos

  datatype NoticeKind = Warning | Success | Info | Danger

  /** A banner shown by showAlert: its message and its Bootstrap alert type. */
  datatype Notice = Notice(message: string, kind: NoticeKind)

  const EmptyTaskNotice := Notice("Please enter a task before adding it to your list!", Warning)
  const TooLongNotice := Notice("Task is too long! Please keep it under 100 characters.", Warning)
  const AddedNotice := Notice("Task added successfully! \U{1F389}", Success)
  const CompletedNotice := Notice("Task completed! \U{1F389}", Info)
  const ActiveNotice := Notice("Task marked as active", Info)
  const EmptyEditNotice := Notice("Task cannot be empty!", Warning)
  const UpdatedNotice := Notice("Task updated successfully!", Success)
  const DeletedNotice := Notice("Task deleted successfully!", Danger)

  /** The edit cursor's value when no row is being edited. */
  const NotEditing: int := -1

  /** Every text in the list has the shape the length rule lets through. */
  ghost predicate AllStored(todos: seq<Todo>)
  {
    forall i :: 0 <= i < |todos| ==> IsStoredText(todos[i].text)
  }

  lemma AllStoredAppend(todos: seq<Todo>, t: Todo)
    requires AllStored(todos) && IsStoredText(t.text)
    ensures AllStored(todos + [t])
  {
  }

  lemma AllStoredUpdate(todos: seq<Todo>, index: nat, t: Todo)
    requires AllStored(todos) && index < |todos| && IsStoredText(t.text)
    ensures AllStored(todos[index := t])
  {
  }

  lemma AllStoredRemove(todos: seq<Todo>, index: nat)
    requires AllStored(todos) && index < |todos|
    ensures AllStored(RemoveAt(todos, index))
  {
  }

  class TodoApp {
    /** The records, in insertion (and display) order. */
    var todos: seq<Todo>
    /** -1, or the index the edit template is shown for. */
    var editingIndex: int

    /** Every stored text is trimmed and 1 to 100 characters long. */
    ghost predicate Valid()
      reads this
    {
      AllStored(todos)
    }

    /** The page starts with no tasks and no row in edit mode. */
    constructor ()
      ensures Valid()
      ensures todos == [] && editingIndex == NotEditing
    {
      todos := [];
      editingIndex := NotEditing;
    }

    /**
     * The form's submit handler: validates the trimmed input and, when it
     * is accepted, adds it; otherwise warns and leaves the state alone.
     */
    method HandleSubmit(input: string, now: int, isoTime: string) returns (notice: Notice)
      requires Valid()
      modifies this
      ensures Valid()
      ensures editingIndex == old(editingIndex)
      ensures match Validate(input)
        case Reject(Empty) => notice == EmptyTaskNotice && todos == old(todos)
        case Reject(TooLong) => notice == TooLongNotice && todos == old(todos)
        case Accept(t) => notice == AddedNotice && todos == old(todos) + [Todo(now, t, false, isoTime)]
    {
      match Validate(input)
      case Reject(Empty) =>
        notice := EmptyTaskNotice;
      case Reject(TooLong) =>
        notice := TooLongNotice;
      case Accept(_) =>
        notice := AddTodo(input, now, isoTime);
    }

    /**
     * addTodo: appends an unchecked record holding the trimmed input, with
     * the clock reading as its id and the ISO time as its creation stamp.
     * Only the submit handler calls it, after the length rule has passed.
     */
    method AddTodo(input: string, now: int, isoTime: string) returns (notice: Notice)
      requires Valid()
      requires Validate(input).Accept?
      modifies this
      ensures Valid()
      ensures todos == old(todos) + [Todo(now, Trim(input), false, isoTime)]
      ensures editingIndex == old(editingIndex)
      ensures notice == AddedNotice
    {
      var t := Todo(now, Trim(input), false, isoTime);
      AllStoredAppend(todos, t);
      todos := todos + [t];
      notice := AddedNotice;
    }

    /** The checkbox `change` handler of row `index`: stores the box's new state. */
    method SetCompleted(index: nat, checked: bool) returns (notice: Notice)
      requires Valid()
      requires index < |todos|
      modifies this
      ensures Valid()
      ensures todos == old(todos)[index := WithCompleted(old(todos)[index], checked)]
      ensures editingIndex == old(editingIndex)
      ensures notice == if checked then CompletedNotice else ActiveNotice
    {
      AllStoredUpdate(todos, index, WithCompleted(todos[index], checked));
      todos := todos[index := WithCompleted(todos[index], checked)];
      notice := if checked then CompletedNotice else ActiveNotice;
    }

    /** The edit button: row `index` switches to the edit template. */
    method StartEdit(index: int)
      requires Valid()
      modifies this
      ensures Valid()
      ensures editingIndex == index
      ensures todos == old(todos)
    {
      editingIndex := index;
    }

    /**
     * The save button or Enter in the edit input: an accepted text replaces
     * the record's text and closes the editor; a refused one only warns,
     * so the row stays in edit mode.
     */
    method SaveEdit(index: nat, newText: string) returns (notice: Notice)
      requires Valid()
      requires index < |todos|
      modifies this
      ensures Valid()
      ensures match Validate(newText)
        case Reject(Empty) =>
          notice == EmptyEditNotice && todos == old(todos) && editingIndex == old(editingIndex)
        case Reject(TooLong) =>
          notice == TooLongNotice && todos == old(todos) && editingIndex == old(editingIndex)
        case Accept(t) =>
          notice == UpdatedNotice && editingIndex == NotEditing &&
          todos == old(todos)[index := old(todos)[index].(text := t)]
    {
      match Validate(newText)
      case Reject(Empty) =>
        notice := EmptyEditNotice;
      case Reject(TooLong) =>
        notice := TooLongNotice;
      case Accept(t) =>
        AllStoredUpdate(todos, index, todos[index].(text := t));
        todos := todos[index := todos[index].(text := t)];
        editingIndex := NotEditing;
        notice := UpdatedNotice;
    }

    /** The cancel button or Escape: closes the editor and keeps the text. */
    method CancelEdit()
      requires Valid()
      modifies this
      ensures Valid()
      ensures editingIndex == NotEditing
      ensures todos == old(todos)
    {
      editingIndex := NotEditing;
    }

    /**
     * The delete button of row `index`: splices the record out. The edit
     * cursor is left as it was, even when it pointed at or past the row.
     */
    method DeleteTodo(index: nat) returns (notice: Notice)
      requires Valid()
      requires index < |todos|
      modifies this
      ensures Valid()
      ensures todos == RemoveAt(old(todos), index)
      ensures editingIndex == old(editingIndex)
      ensures notice == DeletedNotice
    {
      AllStoredRemove(todos, index);
      todos := RemoveAt(todos, index);
      notice := DeletedNotice;
    }
  }

  /** toggleTheme: "dark" becomes "light"; anything else, an absent theme included, becomes "dark". */
  function ToggleTheme(current: string): (next: string)
    ensures next == "light" || next == "dark"
    ensures next == "light" <==> current == "dark"
  {
    if current == "dark" then "light" else "dark"
  }

  /** Once a theme is set, toggling twice restores it. */
  lemma ToggleThemeTwice(current: string)
    requires current == "light" || current == "dark"
    ensures ToggleTheme(ToggleTheme(current)) == current
  {
  }
}
