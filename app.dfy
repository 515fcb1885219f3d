/**
 * The to-do controller held by the `App` component: three pieces of state
 * and the handlers that step them. Each handler is one atomic step; the
 * clock reading an add uses for the new id is supplied by the caller.
 */
module App {
  import opened JsString
  import opened TodoList

  datatype Option<T> = None | Some(value: T)

  class TodoApp {
    /** The list shown to the user, in insertion order. */
    var todos: seq<Todo>
    /** The text in the input bar. */
    var input: string
    /** The record being edited (a snapshot taken when editing started), or
        None when the input bar adds. */
    var editing: Option<Todo>

    /** The ids of the list are pairwise distinct. */
    ghost predicate Valid()
      reads this
    {
      UniqueIds(todos)
    }

    /** The controller is in the Editing mode: submitting commits an edit. */
    predicate Editing()
      reads this
    {
      editing.Some?
    }

    /** Initial state: no records, empty input, Idle. */
    constructor ()
      ensures todos == [] && input == [] && editing == None
      ensures Valid() && !Editing()
    {
      todos := [];
      input := [];
      editing := None;
    }

    /** The input bar's change handler: the input becomes `value`. */
    method SetInput(value: string)
      modifies this`input
      ensures input == value
      ensures old(Valid()) ==> Valid()
    {
      input := value;
    }

    /** The combined add / commit-edit handler. A blank input (empty or only
        whitespace) is ignored. Otherwise, in Editing mode every record with
        the edit target's id gets the raw input as text; in Idle mode a new
        record with id `freshId`, the raw input and `completed = false` is
        appended. Either way the controller ends Idle with an empty input.
        `freshId` stands for the clock reading taken on the append path
        only, and must not be an id already in the list. */
    method AddTodo(freshId: int)
      requires Trim(input) != [] && editing.None? ==> !HasId(todos, freshId)
      modifies this
      ensures Trim(old(input)) == [] ==>
        todos == old(todos) && input == old(input) && editing == old(editing)
      ensures Trim(old(input)) != [] ==> input == [] && editing == None
      ensures Trim(old(input)) != [] && old(editing).Some? ==>
        todos == SetText(old(todos), old(editing).value.id, old(input))
      ensures Trim(old(input)) != [] && old(editing).None? ==>
        todos == old(todos) + [Todo(freshId, old(input), false)]
      ensures old(Valid()) ==> Valid()
    {
      if Trim(input) == [] {
        return;
      }
      if editing.Some? {
        ghost var before := todos;
        todos := SetText(todos, editing.value.id, input);
        if UniqueIds(before) {
          SetTextKeepsUniqueIds(before, editing.value.id, input);
        }
        editing := None;
      } else {
        ghost var before := todos;
        todos := todos + [Todo(freshId, input, false)];
        if UniqueIds(before) {
          AppendFreshKeepsUniqueIds(before, freshId, input);
        }
      }
      input := [];
    }

    /** The completion toggle of the record(s) with `id`. */
    method ToggleTodo(id: int)
      modifies this`todos
      ensures todos == Toggle(old(todos), id)
      ensures old(Valid()) ==> Valid()
    {
      if UniqueIds(todos) {
        ToggleKeepsUniqueIds(todos, id);
      }
      todos := Toggle(todos, id);
    }

    /** The delete of the record(s) with `id`; the edit target is left as it
        is, even when it is the deleted record. */
    method DeleteTodo(id: int)
      modifies this`todos
      ensures todos == Remove(old(todos), id)
      ensures old(Valid()) ==> Valid()
    {
      if UniqueIds(todos) {
        RemoveKeepsUniqueIds(todos, id);
      }
      todos := Remove(todos, id);
    }

    /** Starts editing `todo`: it becomes the edit target and its text is
        put in the input bar; the list is not touched. */
    method StartEditing(todo: Todo)
      modifies this`editing, this`input
      ensures editing == Some(todo) && input == todo.text
      ensures old(Valid()) ==> Valid()
    {
      editing := Some(todo);
      input := todo.text;
    }
  }

  /** Starting an edit of a listed record and submitting a non-blank text
      rewrites that record's text only, and returns the controller to Idle
      with an empty input, so the next submission adds. */
  method EditRecord(app: TodoApp, k: int, text: string)
    requires app.Valid() && 0 <= k < |app.todos|
    requires Trim(text) != []
    modifies app
    ensures app.todos == old(app.todos)[k := old(app.todos)[k].(text := text)]
    ensures app.Valid() && !app.Editing() && app.input == []
  {
    ghost var before := app.todos;
    var target := app.todos[k];
    app.StartEditing(target);
    app.SetInput(text);
    assert app.editing == Some(target) && app.todos == before;
    SetTextAt(before, k, text);
    app.AddTodo(0);  // Editing mode: the id is not used, so any value will do
  }

  /** Deleting the record being edited and then submitting leaves the list
      as the delete made it, and still returns the controller to Idle with
      an empty input. */
  method DeleteThenCommit(app: TodoApp, todo: Todo, text: string)
    requires Trim(text) != []
    modifies app
    ensures app.todos == Remove(old(app.todos), todo.id)
    ensures !app.Editing() && app.input == []
  {
    ghost var before := app.todos;
    app.StartEditing(todo);
    app.SetInput(text);
    app.DeleteTodo(todo.id);
    assert app.editing == Some(todo) && app.input == text;
    assert app.todos == Remove(before, todo.id);
    EditAfterRemove(before, todo.id, text);
    app.AddTodo(0);  // Editing mode: the id is not used, so any value will do
  }
}
