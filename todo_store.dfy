/**
 * The `Home` component's state cells and the event handlers that replace
 * them. Each handler is one atomic transition: the fields are assigned what
 * the corresponding setter calls receive.
 */
module Home {
  import opened Text
  import opened TodoList

  class TodoStore {
    /** The task list (`todos`). */
    var todos: seq<Todo>
    /** The draft title typed into the dialog (`newTask`). */
    var newTask: string
    /** Whether the add-task dialog is open (`showDialog`). */
    var showDialog: bool

    /** Only the add handler creates records, and it never stores a blank title. */
    ghost predicate Valid()
      reads this
    {
      TitlesFilled(todos)
    }

    /** The initial values given to the three state cells. */
    constructor ()
      ensures Valid()
      ensures todos == [] && newTask == "" && !showDialog
    {
      todos := [];
      newTask := "";
      showDialog := false;
    }

    /** The "+ Add Task" button opens the dialog. */
    method OpenDialog()
      requires Valid()
      modifies this
      ensures Valid()
      ensures showDialog
      ensures todos == old(todos) && newTask == old(newTask)
    {
      showDialog := true;
    }

    /** Typing into the title field replaces the draft. */
    method EditDraft(text: string)
      requires Valid()
      modifies this
      ensures Valid()
      ensures newTask == text
      ensures todos == old(todos) && showDialog == old(showDialog)
    {
      newTask := text;
    }

    /**
     * Submitting the dialog. A blank draft returns before any setter runs;
     * otherwise the draft, untrimmed, becomes a new record at the end of the
     * list, the draft is cleared and the dialog closed.
     */
    method HandleAddTask(id: int)
      requires Valid()
      modifies this
      ensures Valid()
      ensures todos == Add(old(todos), id, old(newTask))
      ensures IsBlank(old(newTask)) ==>
        todos == old(todos) && newTask == old(newTask) && showDialog == old(showDialog)
      ensures !IsBlank(old(newTask)) ==>
        todos == old(todos) + [Todo(id, old(newTask), false)] && newTask == "" && !showDialog
    {
      var trimmed := Trim(newTask);
      assert trimmed == [] <==> IsBlank(newTask) by { TrimEmptyIffBlank(newTask); }
      if trimmed == [] {
        return;
      }
      AddKeepsTitlesFilled(todos, id, newTask);
      todos := todos + [Todo(id, newTask, false)];
      newTask := "";
      showDialog := false;
    }

    /** Clicking a record's title or its Complete/Undo button. */
    method HandleComplete(id: int)
      requires Valid()
      modifies this
      ensures Valid()
      ensures todos == Toggle(old(todos), id)
      ensures newTask == old(newTask) && showDialog == old(showDialog)
    {
      ToggleKeepsTitlesFilled(todos, id);
      todos := Toggle(todos, id);
    }

    /** Clicking a record's Delete button. */
    method HandleDelete(id: int)
      requires Valid()
      modifies this
      ensures Valid()
      ensures todos == Delete(old(todos), id)
      ensures newTask == old(newTask) && showDialog == old(showDialog)
    {
      DeleteKeepsTitlesFilled(todos, id);
      todos := Delete(todos, id);
    }

    /** The dialog's Cancel button closes the dialog and discards the draft. */
    method HandleCancel()
      requires Valid()
      modifies this
      ensures Valid()
      ensures !showDialog && newTask == ""
      ensures todos == old(todos)
    {
      showDialog := false;
      newTask := "";
    }
  }
}
