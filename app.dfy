/** The `App` component's state and its event handlers. Each handler is one
    atomic step over the five state cells: the list, the two form drafts,
    the edit session and the view filter. */
module TodoApp {
  import opened Seqs
  import opened Todos

  datatype Option<T> = None | Some(value: T)

  class App {
    /** The todos, in insertion order. */
    var todos: seq<Todo>
    /** The title draft bound to the form. */
    var input: string
    /** The description draft bound to the form. */
    var desc: string
    /** `None` is create mode, `Some(id)` is edit mode on the todos carrying `id`. */
    var editingId: Option<int>
    /** Which todos the list shows. */
    var filter: FilterMode

    /** Initial state: no todos, empty drafts, create mode, all shown. */
    constructor ()
      ensures todos == [] && input == "" && desc == "" && editingId == None && filter == All
      ensures UniqueIds(todos)
    {
      todos, input, desc, editingId, filter := [], "", "", None, All;
    }

    /** The title field's change handler. */
    method SetInput(value: string)
      modifies this
      ensures input == value
      ensures todos == old(todos) && desc == old(desc) && editingId == old(editingId) && filter == old(filter)
    {
      input := value;
    }

    /** The description field's change handler. */
    method SetDesc(value: string)
      modifies this
      ensures desc == value
      ensures todos == old(todos) && input == old(input) && editingId == old(editingId) && filter == old(filter)
    {
      desc := value;
    }

    /** `handleAddTodo`. `now` is the timestamp the clock gives as the new id.
        A blank title changes nothing. Otherwise, in create mode a new
        uncompleted todo is appended; in edit mode the drafts are committed to
        the todos carrying the edited id and the session returns to create
        mode; either way both drafts are cleared. Ids stay unique provided
        that, in create mode, `now` is not already in use. */
    method Submit(now: int)
      modifies this
      ensures IsBlank(old(input)) ==>
        todos == old(todos) && input == old(input) && desc == old(desc) &&
        editingId == old(editingId) && filter == old(filter)
      ensures !IsBlank(old(input)) && old(editingId) == None ==>
        todos == old(todos) + [Todo(now, old(input), old(desc), false)] &&
        input == "" && desc == "" && editingId == None && filter == old(filter)
      ensures !IsBlank(old(input)) && old(editingId).Some? ==>
        todos == UpdateWhere(old(todos), old(editingId).value, old(input), old(desc)) &&
        input == "" && desc == "" && editingId == None && filter == old(filter)
      ensures UniqueIds(old(todos)) && (old(editingId) == None ==> !HasId(old(todos), now)) ==>
        UniqueIds(todos)
    {
      if Trim(input) == "" {
        return;
      }
      if editingId.Some? {
        if UniqueIds(todos) {
          UpdateKeepsUnique(todos, editingId.value, input, desc);
        }
        todos := UpdateWhere(todos, editingId.value, input, desc);
        editingId := None;
      } else {
        if UniqueIds(todos) && !HasId(todos, now) {
          AppendFreshKeepsUnique(todos, Todo(now, input, desc, false));
        }
        todos := todos + [Todo(now, input, desc, false)];
      }
      input := "";
      desc := "";
    }

    /** `handleEditTodo`: load a todo into the form and enter edit mode on its
        id. Any todo is accepted, in either mode. */
    method BeginEdit(todo: Todo)
      modifies this
      ensures input == todo.title && desc == todo.desc && editingId == Some(todo.id)
      ensures todos == old(todos) && filter == old(filter)
    {
      input := todo.title;
      desc := todo.desc;
      editingId := Some(todo.id);
    }

    /** `handleDeleteTodo`: remove every todo carrying `id`. If that id is the
        one being edited, the session returns to create mode with empty drafts;
        otherwise the session is left as it was. */
    method Delete(id: int)
      modifies this
      ensures todos == RemoveId(old(todos), id)
      ensures old(editingId) == Some(id) ==> editingId == None && input == "" && desc == ""
      ensures old(editingId) != Some(id) ==>
        editingId == old(editingId) && input == old(input) && desc == old(desc)
      ensures filter == old(filter)
      ensures UniqueIds(old(todos)) ==> UniqueIds(todos)
    {
      if UniqueIds(todos) {
        RemoveKeepsUnique(todos, id);
      }
      todos := RemoveId(todos, id);
      if editingId == Some(id) {
        input := "";
        desc := "";
        editingId := None;
      }
    }

    /** `handleToggleCompleted`: flip the completion flag of the todos carrying `id`. */
    method Toggle(id: int)
      modifies this
      ensures todos == ToggleWhere(old(todos), id)
      ensures input == old(input) && desc == old(desc) && editingId == old(editingId) && filter == old(filter)
      ensures UniqueIds(old(todos)) ==> UniqueIds(todos)
    {
      if UniqueIds(todos) {
        ToggleKeepsUnique(todos, id);
      }
      todos := ToggleWhere(todos, id);
    }

    /** `handleCancelEdit`: back to create mode with empty drafts; the list is untouched. */
    method CancelEdit()
      modifies this
      ensures editingId == None && input == "" && desc == ""
      ensures todos == old(todos) && filter == old(filter)
    {
      editingId := None;
      input := "";
      desc := "";
    }

    /** `handleFilterChange`: only the filter changes. */
    method SetFilter(mode: FilterMode)
      modifies this
      ensures filter == mode
      ensures todos == old(todos) && input == old(input) && desc == old(desc) && editingId == old(editingId)
    {
      filter := mode;
    }
  }

  /* ---------------- Behaviour across several handler calls ---------------- */

  /** Beginning an edit and cancelling it leaves the list and the filter as
      they were and the form in create mode with empty drafts. */
  method EditThenCancel(app: App, todo: Todo)
    modifies app
    ensures app.todos == old(app.todos) && app.filter == old(app.filter)
    ensures app.editingId == None && app.input == "" && app.desc == ""
  {
    app.BeginEdit(todo);
    app.CancelEdit();
  }

  /** Beginning an edit of a todo and then deleting it forces create mode
      with empty drafts, and no todo with that id remains. */
  method EditThenDelete(app: App, todo: Todo)
    modifies app
    ensures app.todos == RemoveId(old(app.todos), todo.id)
    ensures !HasId(app.todos, todo.id)
    ensures app.editingId == None && app.input == "" && app.desc == "" && app.filter == old(app.filter)
  {
    app.BeginEdit(todo);
    app.Delete(todo.id);
  }

  /** Deleting the same id twice leaves the same state as deleting it once. */
  method DeleteTwice(app: App, id: int)
    modifies app
    ensures app.todos == RemoveId(old(app.todos), id)
    ensures old(app.editingId) == Some(id) ==> app.editingId == None && app.input == "" && app.desc == ""
    ensures old(app.editingId) != Some(id) ==>
      app.editingId == old(app.editingId) && app.input == old(app.input) && app.desc == old(app.desc)
    ensures app.filter == old(app.filter)
  {
    app.Delete(id);
    RemoveIdempotent(app.todos, id);
    app.Delete(id);
  }

  /** Toggling the same id twice restores the list and touches nothing else. */
  method ToggleTwice(app: App, id: int)
    modifies app
    ensures app.todos == old(app.todos)
    ensures app.input == old(app.input) && app.desc == old(app.desc)
    ensures app.editingId == old(app.editingId) && app.filter == old(app.filter)
  {
    app.Toggle(id);
    app.Toggle(id);
    ToggleInvolution(old(app.todos), id);
  }

  /** From a fresh app: add "Buy milk" / "2%", complete it, show only
      completed todos (it is shown), delete it (nothing is shown). */
  method BuyMilkScenario(now: int) returns (shownAfterToggle: seq<Todo>, shownAfterDelete: seq<Todo>)
    ensures shownAfterToggle == [Todo(now, "Buy milk", "2%", true)]
    ensures shownAfterDelete == []
  {
    var app := new App();
    app.SetInput("Buy milk");
    app.SetDesc("2%");
    assert !IsWhitespace('B');
    assert !IsBlank(app.input) by { assert app.input[0] == 'B'; }
    app.Submit(now);
    assert app.todos == [Todo(now, "Buy milk", "2%", false)];
    app.Toggle(now);
    assert app.todos == [Todo(now, "Buy milk", "2%", true)];
    app.SetFilter(Completed);
    shownAfterToggle := Project(app.todos, app.filter);
    FilterKeepsAll((t: Todo) => t.completed, app.todos);
    app.Delete(now);
    shownAfterDelete := Project(app.todos, app.filter);
  }
}
