/**
 * The `Home` page component: its state (the task list, the two inputs and the
 * filter selector) and one method per event handler. Each handler runs to
 * completion at once; the outcome of its remote call is a parameter, and the
 * request it sends (if any) is its result.
 */
module HomePage {
  import opened Wrappers
  import opened Todos
  import opened Strings
  import opened TaskList

  class Home {
    var tasks: seq<Row>
    var newTask: string
    var newDescription: string
    var filter: string

    /** Every stored row has a defined `expanded` flag: each is set on load, add and toggle. */
    ghost predicate Valid()
      reads this
    {
      ExpandedDefined(tasks)
    }

    /** The initial state: no tasks, empty inputs, selector `all`. */
    constructor ()
      ensures Valid()
      ensures tasks == [] && newTask == "" && newDescription == "" && filter == AllFilter
    {
      tasks := [];
      newTask := "";
      newDescription := "";
      filter := AllFilter;
    }

    /** The title input's `onChange`. */
    method SetNewTask(text: string)
      modifies this`newTask
      ensures newTask == text
    {
      newTask := text;
    }

    /** The description input's `onChange`. */
    method SetNewDescription(text: string)
      modifies this`newDescription
      ensures newDescription == text
    {
      newDescription := text;
    }

    /** The selector buttons' `onClick`. */
    method SetFilter(selector: string)
      modifies this`filter
      ensures filter == selector
    {
      filter := selector;
    }

    /**
     * The effect run when the user changes: with a user present it fetches that
     * user's tasks (newest first, as the service orders them) and on success
     * shows them collapsed, in the order fetched; on failure, or with no user,
     * the list stays as it was.
     */
    method FetchTasks(user: Option<User>, fetched: Outcome<seq<Todo>>) returns (request: Option<string>)
      requires Valid()
      modifies this`tasks
      ensures Valid()
      ensures request == if user.Some? then Some(user.value.id) else None
      ensures tasks == if request.Some? && fetched.Ok? then Loaded(fetched.value) else old(tasks)
    {
      request := None;
      if user.Some? {
        request := Some(user.value.id);
        match fetched
        case Ok(todos) =>
          tasks := Loaded(todos);
          LoadedRoundTrip(todos);
        case Err =>
      }
    }

    /**
     * Form submit: nothing happens without a user or with a blank title. Otherwise
     * the insert is sent; on success the new task is put first, collapsed, and
     * both inputs are cleared; on failure nothing changes.
     */
    method AddTask(user: Option<User>, created: Outcome<Todo>) returns (request: Option<NewTodo>)
      requires Valid()
      modifies this`tasks, this`newTask, this`newDescription
      ensures Valid()
      ensures request.None? <==> user.None? || Blank(old(newTask))
      ensures request.Some? ==> request.value == CreateRequest(user.value, old(newTask), old(newDescription))
      ensures if request.Some? && created.Ok?
        then tasks == Prepended(created.value, old(tasks)) && newTask == "" && newDescription == ""
        else tasks == old(tasks) && newTask == old(newTask) && newDescription == old(newDescription)
    {
      request := None;
      assert Trim(newTask) == "" <==> Blank(newTask);
      if user.None? || Trim(newTask) == "" {
        return;
      }
      request := Some(CreateRequest(user.value, newTask, newDescription));
      match created
      case Ok(todo) =>
        PrependedKeeps(todo, tasks);
        tasks := Prepended(todo, tasks);
        newTask := "";
        newDescription := "";
      case Err =>
    }

    /**
     * A task's checkbox: an identifier no row has sends nothing. Otherwise the
     * update inverting the first such row's completion is sent; on success every
     * row with that identifier takes the returned record and keeps its own flag.
     */
    method ToggleTask(id: string, updated: Outcome<Todo>) returns (request: Option<TodoUpdate>)
      requires Valid()
      modifies this`tasks
      ensures Valid()
      ensures request.None? <==> !HasId(old(tasks), id)
      ensures request.Some? ==> request.value == TodoUpdate(id, !FindById(old(tasks), id).value.todo.isComplete)
      ensures tasks == if request.Some? && updated.Ok? then ReplaceById(old(tasks), id, updated.value) else old(tasks)
    {
      request := None;
      var found := FindById(tasks, id);
      if found.None? {
        return;
      }
      request := Some(TodoUpdate(id, !found.value.todo.isComplete));
      match updated
      case Ok(todo) =>
        ReplaceByIdKeepsFlags(tasks, id, todo);
        tasks := ReplaceById(tasks, id, todo);
      case Err =>
    }

    /**
     * A task's delete button: the delete of `id` is always sent, whether or not
     * a row has that identifier; on success every row with that identifier is
     * removed, on failure nothing changes.
     */
    method DeleteTask(id: string, deleted: Outcome<()>) returns (request: string)
      requires Valid()
      modifies this`tasks
      ensures Valid()
      ensures request == id
      ensures tasks == if deleted.Ok? then RemoveById(old(tasks), id) else old(tasks)
    {
      request := id;
      if deleted.Ok? {
        RemoveByIdKeeps(tasks, id);
        tasks := RemoveById(tasks, id);
      }
    }

    /** A task's expand button: flips the flag of the rows with that identifier, locally. */
    method ToggleExpand(id: string)
      requires Valid()
      modifies this`tasks
      ensures Valid()
      ensures tasks == ToggleExpandById(old(tasks), id)
    {
      ToggleExpandInvolution(tasks, id);
      tasks := ToggleExpandById(tasks, id);
    }

    /** The rows shown under the current selector. */
    function FilteredTasks(): (view: seq<Row>)
      reads this
      ensures view == Filtered(tasks, filter)
      ensures forall x :: x in view ==> x in tasks
    {
      Filtered(tasks, filter)
    }

    /** The "tasks remaining" count in the header. */
    function RemainingCount(): (n: nat)
      reads this
      ensures n == |Filtered(tasks, ActiveFilter)|
      ensures n + |Filtered(tasks, CompletedFilter)| == |tasks|
    {
      RemainingIsActive(tasks);
      Remaining(tasks)
    }
  }

  /**
   * Signing in with no stored tasks, then adding one with a blank description,
   * checked against the handlers' contracts.
   */
  method SignInAndAdd(user: User, created: Todo)
  {
    var page := new Home();
    var load := page.FetchTasks(Some(user), Ok([]));
    assert page.tasks == [];
    RemainingIsActive(page.tasks);
    assert page.RemainingCount() == 0;

    page.SetNewTask("Buy milk");
    assert !Blank("Buy milk") by { assert "Buy milk"[0] == 'B'; }
    assert Blank(page.newDescription);
    var insert := page.AddTask(Some(user), Ok(created));
    assert insert == Some(NewTodo(user.id, "Buy milk", Placeholder, false));
    assert page.tasks == Prepended(created, []) == [Row(created, Some(false))];
    assert page.newTask == "" && page.newDescription == "";
  }

  /**
   * Toggling, expanding and deleting the one stored task, checked against the
   * handlers' contracts; a failed delete keeps it.
   */
  method ToggleExpandDelete(user: User, stored: Todo, updated: Todo)
    requires !stored.isComplete && updated.id == stored.id && updated.isComplete
  {
    var page := new Home();
    var load := page.FetchTasks(Some(user), Ok([stored]));
    assert page.tasks == [Row(stored, Some(false))];

    assert HasId(page.tasks, stored.id) by { assert page.tasks[0].todo.id == stored.id; }
    var update := page.ToggleTask(stored.id, Ok(updated));
    assert update == Some(TodoUpdate(stored.id, true));
    assert page.tasks == [Row(updated, Some(false))];

    page.ToggleExpand(stored.id);
    assert page.tasks == [Row(updated, Some(true))];

    var sent := page.DeleteTask(stored.id, Err);
    assert sent == stored.id && page.tasks == [Row(updated, Some(true))];
    sent := page.DeleteTask(stored.id, Ok(()));
    RemoveSingle(Row(updated, Some(true)), stored.id);
    assert page.tasks == [];
  }
}
