/**
 * The pure collection transforms of the home page's task list: each row is a
 * `Todo` from the service plus the UI-only `expanded` flag, and each handler
 * replaces the whole list by one of these functions of the old list.
 */
module TaskList {
  import opened Wrappers
  import opened Todos
  import opened Strings
  import Sequences

  /**
   * A `Todo` with the UI-only flag of `TodoWithUI`. The flag is optional in the
   * page's type (`expanded?: boolean`), so it is an `Option`; reading an absent
   * flag as a boolean gives false.
   */
  datatype Row = Row(todo: Todo, expanded: Option<bool>)

  /** The description sent when the description input trims to nothing. */
  const Placeholder: string := "No description provided"

  /** The filter selector values the page offers; any other value shows everything. */
  const ActiveFilter: string := "active"
  const CompletedFilter: string := "completed"
  const AllFilter: string := "all"

  /** The truth value of an optional flag (`!!task.expanded`). */
  function Truthy(flag: Option<bool>): (b: bool)
    ensures b <==> flag.Some? && flag.value
  {
    flag == Some(true)
  }

  /** Every row carries a defined `expanded` flag. */
  predicate ExpandedDefined(rows: seq<Row>) {
    forall i :: 0 <= i < |rows| ==> rows[i].expanded.Some?
  }

  /** Some row has identifier `id`. */
  predicate HasId(rows: seq<Row>, id: string) {
    exists i :: 0 <= i < |rows| && rows[i].todo.id == id
  }

  /** No two rows share an identifier (the service's primary key). */
  predicate UniqueIds(rows: seq<Row>) {
    forall i, j :: 0 <= i < j < |rows| ==> rows[i].todo.id != rows[j].todo.id
  }

  /** The records the rows hold, without the UI flag. */
  function Records(rows: seq<Row>): (todos: seq<Todo>)
    ensures |todos| == |rows|
    ensures forall i :: 0 <= i < |rows| ==> todos[i] == rows[i].todo
  {
    if rows == [] then [] else [rows[0].todo] + Records(rows[1..])
  }

  // ---------------------------------------------------------------------------
  // Loading the signed-in user's tasks

  /** `tasks.map(task => ({ ...task, expanded: false }))`. */
  function Loaded(fetched: seq<Todo>): (rows: seq<Row>)
    ensures |rows| == |fetched|
    ensures forall i :: 0 <= i < |rows| ==> rows[i] == Row(fetched[i], Some(false))
  {
    if fetched == [] then [] else [Row(fetched[0], Some(false))] + Loaded(fetched[1..])
  }

  /**
   * A load shows the fetched records in the order fetched, each collapsed, and
   * dropping the UI flag gives back exactly the fetched list.
   */
  lemma LoadedRoundTrip(fetched: seq<Todo>)
    ensures Records(Loaded(fetched)) == fetched
    ensures ExpandedDefined(Loaded(fetched))
    ensures forall i :: 0 <= i < |fetched| ==> !Truthy(Loaded(fetched)[i].expanded)
  {
    var rows := Loaded(fetched);
    assert forall i :: 0 <= i < |fetched| ==> Records(rows)[i] == rows[i].todo == fetched[i];
  }

  // ---------------------------------------------------------------------------
  // Adding a task

  /**
   * The insert payload built from the two inputs: the title as typed, the
   * description trimmed or the placeholder when it trims to nothing, and
   * `is_complete = false`.
   */
  function CreateRequest(user: User, title: string, description: string): (req: NewTodo)
    ensures req.userId == user.id && req.title == title && !req.isComplete
    ensures Blank(description) ==> req.description == Placeholder
    ensures !Blank(description) ==> req.description == Trim(description)
  {
    var trimmed := Trim(description);
    NewTodo(user.id, title, if trimmed != "" then trimmed else Placeholder, false)
  }

  /** The description sent is never blank and has no white space at either end. */
  lemma CreateRequestDescription(user: User, title: string, description: string)
    ensures var d := CreateRequest(user, title, description).description;
      d != "" && Trim(d) == d
  {
    if Blank(description) {
      assert Placeholder[0] == 'N' && Placeholder[|Placeholder| - 1] == 'd';
      TrimUnpadded(Placeholder);
    } else {
      TrimIdempotent(description);
    }
  }

  /** `[{ ...newTodo, expanded: false }, ...tasks]`. */
  function Prepended(created: Todo, rows: seq<Row>): (r: seq<Row>)
    ensures |r| == |rows| + 1 && r[0] == Row(created, Some(false)) && r[1..] == rows
  {
    [Row(created, Some(false))] + rows
  }

  /** Prepending keeps every flag defined. */
  lemma PrependedKeeps(created: Todo, rows: seq<Row>)
    ensures ExpandedDefined(rows) ==> ExpandedDefined(Prepended(created, rows))
  {
    var r := Prepended(created, rows);
    assert forall i :: 1 <= i < |r| ==> r[i] == rows[i - 1];
  }

  // ---------------------------------------------------------------------------
  // Toggling a task's completion

  /** Index `i` holds the first row with identifier `id`. */
  predicate FirstWithId(rows: seq<Row>, id: string, i: int) {
    0 <= i < |rows| && rows[i].todo.id == id && forall j :: 0 <= j < i ==> rows[j].todo.id != id
  }

  /** `tasks.find(task => task.id === id)`: the first row with identifier `id`. */
  function FindById(rows: seq<Row>, id: string): (found: Option<Row>)
    ensures found.None? <==> !HasId(rows, id)
    ensures found.Some? ==> found.value.todo.id == id && exists i :: FirstWithId(rows, id, i) && rows[i] == found.value
  {
    if rows == [] then None
    else if rows[0].todo.id == id then Some(rows[0])
    else
      var found := FindById(rows[1..], id);
      assert HasId(rows, id) ==> HasId(rows[1..], id) by {
        if HasId(rows, id) {
          var i :| 0 <= i < |rows| && rows[i].todo.id == id;
          assert rows[1..][i - 1].todo.id == id;
        }
      }
      if found.Some? then
        var i :| FirstWithId(rows[1..], id, i) && rows[1..][i] == found.value;
        assert FirstWithId(rows, id, i + 1);
        found
      else
        found
  }

  /**
   * `tasks.map(task => task.id === id ? { ...updatedTodo, expanded: task.expanded } : task)`:
   * every row with identifier `id` takes the service's record and keeps its own
   * flag; every other row is untouched.
   */
  function ReplaceById(rows: seq<Row>, id: string, updated: Todo): (r: seq<Row>)
    ensures |r| == |rows|
    ensures forall i :: 0 <= i < |rows| ==>
      r[i] == if rows[i].todo.id == id then Row(updated, rows[i].expanded) else rows[i]
  {
    if rows == [] then []
    else
      var head := if rows[0].todo.id == id then Row(updated, rows[0].expanded) else rows[0];
      [head] + ReplaceById(rows[1..], id, updated)
  }

  /** Replacing keeps every row's flag, so defined flags stay defined. */
  lemma ReplaceByIdKeepsFlags(rows: seq<Row>, id: string, updated: Todo)
    requires ExpandedDefined(rows)
    ensures ExpandedDefined(ReplaceById(rows, id, updated))
  {
    var r := ReplaceById(rows, id, updated);
    assert forall i :: 0 <= i < |rows| ==> r[i].expanded == rows[i].expanded;
  }

  /** Replacing an identifier no row has leaves the list as it was. */
  lemma ReplaceAbsent(rows: seq<Row>, id: string, updated: Todo)
    requires !HasId(rows, id)
    ensures ReplaceById(rows, id, updated) == rows
  {
  }

  /** A record that keeps its identifier keeps the identifiers unique. */
  lemma ReplaceByIdKeepsUnique(rows: seq<Row>, id: string, updated: Todo)
    requires updated.id == id && UniqueIds(rows)
    ensures UniqueIds(ReplaceById(rows, id, updated))
  {
    var r := ReplaceById(rows, id, updated);
    assert forall i :: 0 <= i < |rows| ==> r[i].todo.id == rows[i].todo.id;
  }

  // ---------------------------------------------------------------------------
  // Deleting a task

  /** The callback `task => task.id !== id`. */
  function IdIsNot(id: string): Row -> bool {
    (row: Row) => row.todo.id != id
  }

  /** `tasks.filter(task => task.id !== id)`. */
  function RemoveById(rows: seq<Row>, id: string): (r: seq<Row>)
    ensures |r| <= |rows|
    ensures forall i :: 0 <= i < |r| ==> r[i].todo.id != id
  {
    Sequences.Filter(rows, IdIsNot(id))
  }

  /** A row survives removal exactly when it was in the list with another identifier. */
  lemma RemoveByIdMembers(rows: seq<Row>, id: string)
    ensures forall x :: x in RemoveById(rows, id) <==> x in rows && x.todo.id != id
  {
    Sequences.FilterMembers(rows, IdIsNot(id));
  }

  /** Removing is order-preserving: it distributes over concatenation. */
  lemma RemoveByIdConcat(a: seq<Row>, b: seq<Row>, id: string)
    ensures RemoveById(a + b, id) == RemoveById(a, id) + RemoveById(b, id)
  {
    Sequences.FilterConcat(a, b, IdIsNot(id));
  }

  /** Removing an identifier no row has leaves the list as it was. */
  lemma RemoveAbsent(rows: seq<Row>, id: string)
    requires !HasId(rows, id)
    ensures RemoveById(rows, id) == rows
  {
    Sequences.FilterKeepsAll(rows, IdIsNot(id));
  }

  /**
   * With unique identifiers, removing a present identifier drops exactly the one
   * row at its index and keeps the rows before and after it in order.
   */
  lemma RemoveUnique(rows: seq<Row>, id: string, k: nat)
    requires UniqueIds(rows) && k < |rows| && rows[k].todo.id == id
    ensures RemoveById(rows, id) == rows[..k] + rows[k + 1..]
    ensures |RemoveById(rows, id)| == |rows| - 1
  {
    var before, after := rows[..k], rows[k + 1..];
    assert rows == before + [rows[k]] + after;
    NoIdInSlice(rows, id, 0, k);
    NoIdInSlice(rows, id, k + 1, |rows|);
    assert rows[0..k] == before && rows[k + 1..|rows|] == after;
    RemoveBetween(before, rows[k], after, id);
  }

  /** Removing the identifier of the one row between two rows-lists that lack it. */
  lemma RemoveBetween(before: seq<Row>, row: Row, after: seq<Row>, id: string)
    requires !HasId(before, id) && !HasId(after, id) && row.todo.id == id
    ensures RemoveById(before + [row] + after, id) == before + after
  {
    calc {
      RemoveById(before + [row] + after, id);
      { RemoveByIdConcat(before + [row], after, id); }
      RemoveById(before + [row], id) + RemoveById(after, id);
      { RemoveByIdConcat(before, [row], id); }
      RemoveById(before, id) + RemoveById([row], id) + RemoveById(after, id);
      { RemoveAbsent(before, id); RemoveAbsent(after, id); RemoveSingle(row, id); }
      before + after;
    }
  }

  /** With unique identifiers, no slice that avoids the index of `id` holds `id`. */
  lemma NoIdInSlice(rows: seq<Row>, id: string, lo: nat, hi: nat)
    requires lo <= hi <= |rows|
    requires forall i :: lo <= i < hi ==> rows[i].todo.id != id
    ensures !HasId(rows[lo..hi], id)
  {
    forall i | 0 <= i < hi - lo ensures rows[lo..hi][i].todo.id != id {
      assert rows[lo..hi][i] == rows[lo + i];
    }
  }

  /** Removing its own identifier from a one-row list empties it. */
  lemma RemoveSingle(row: Row, id: string)
    requires row.todo.id == id
    ensures RemoveById([row], id) == []
  {
    assert [row][1..] == [];
  }

  /** Removing keeps every flag defined. */
  lemma RemoveByIdKeeps(rows: seq<Row>, id: string)
    ensures ExpandedDefined(rows) ==> ExpandedDefined(RemoveById(rows, id))
  {
    var r := RemoveById(rows, id);
    RemoveByIdMembers(rows, id);
    forall i | 0 <= i < |r| ensures ExpandedDefined(rows) ==> r[i].expanded.Some? {
      assert r[i] in rows;
    }
  }

  // ---------------------------------------------------------------------------
  // Expanding and collapsing a task

  /**
   * `tasks.map(task => task.id === id ? { ...task, expanded: !task.expanded } : task)`:
   * every row with identifier `id` gets the negation of its flag (an absent flag
   * reads as false, so it becomes true); every other row is untouched.
   */
  function ToggleExpandById(rows: seq<Row>, id: string): (r: seq<Row>)
    ensures |r| == |rows|
    ensures forall i :: 0 <= i < |rows| ==>
      r[i] == if rows[i].todo.id == id then Row(rows[i].todo, Some(!Truthy(rows[i].expanded))) else rows[i]
  {
    if rows == [] then []
    else
      var head := if rows[0].todo.id == id then Row(rows[0].todo, Some(!Truthy(rows[0].expanded))) else rows[0];
      [head] + ToggleExpandById(rows[1..], id)
  }

  /**
   * Expanding is local: the records are unchanged and defined flags stay defined.
   * When every flag is defined, toggling twice restores the list.
   */
  lemma ToggleExpandInvolution(rows: seq<Row>, id: string)
    ensures Records(ToggleExpandById(rows, id)) == Records(rows)
    ensures ExpandedDefined(rows) ==> ExpandedDefined(ToggleExpandById(rows, id))
    ensures ExpandedDefined(rows) ==> ToggleExpandById(ToggleExpandById(rows, id), id) == rows
  {
    var once := ToggleExpandById(rows, id);
    assert Records(once) == Records(rows) by {
      assert forall i :: 0 <= i < |rows| ==> Records(once)[i] == once[i].todo == rows[i].todo;
    }
    if ExpandedDefined(rows) {
      var twice := ToggleExpandById(once, id);
      forall i | 0 <= i < |rows| ensures twice[i] == rows[i] && once[i].expanded.Some? {
        assert once[i].todo == rows[i].todo;
        if rows[i].todo.id == id {
          var b := rows[i].expanded.value;
          assert once[i] == Row(rows[i].todo, Some(!b));
          assert twice[i] == Row(rows[i].todo, Some(b));
        }
      }
    }
  }

  /** Without a defined flag, toggling twice does not restore the row. */
  lemma ToggleExpandUndefinedFlag(t: Todo)
    ensures ToggleExpandById(ToggleExpandById([Row(t, None)], t.id), t.id) == [Row(t, Some(false))]
  {
  }

  // ---------------------------------------------------------------------------
  // The filtered view and the remaining count

  /** The callback of `filteredTasks` for the selector `filter`. */
  function Selector(filter: string): (keep: Row -> bool)
    ensures filter == ActiveFilter ==> forall row: Row :: keep(row) == !row.todo.isComplete
    ensures filter == CompletedFilter ==> forall row: Row :: keep(row) == row.todo.isComplete
    ensures filter != ActiveFilter && filter != CompletedFilter ==> forall row: Row :: keep(row)
  {
    (row: Row) => if filter == ActiveFilter then !row.todo.isComplete
      else if filter == CompletedFilter then row.todo.isComplete
      else true
  }

  /**
   * `filteredTasks`: `active` keeps exactly the incomplete tasks, `completed`
   * exactly the complete ones, any other selector keeps the whole list.
   */
  function Filtered(rows: seq<Row>, filter: string): (view: seq<Row>)
    ensures filter == ActiveFilter ==> forall x :: x in view <==> x in rows && !x.todo.isComplete
    ensures filter == CompletedFilter ==> forall x :: x in view <==> x in rows && x.todo.isComplete
    ensures filter != ActiveFilter && filter != CompletedFilter ==> view == rows
  {
    Sequences.FilterMembers(rows, Selector(filter));
    if filter != ActiveFilter && filter != CompletedFilter then
      Sequences.FilterKeepsAll(rows, Selector(filter));
      Sequences.Filter(rows, Selector(filter))
    else
      Sequences.Filter(rows, Selector(filter))
  }

  /** The filtered view is order-preserving: it distributes over concatenation. */
  lemma FilteredConcat(a: seq<Row>, b: seq<Row>, filter: string)
    ensures Filtered(a + b, filter) == Filtered(a, filter) + Filtered(b, filter)
  {
    Sequences.FilterConcat(a, b, Selector(filter));
  }

  /**
   * `active` and `completed` partition the list: they are disjoint, and together
   * they hold every row exactly as often as the list does.
   */
  lemma FilteredPartition(rows: seq<Row>)
    ensures multiset(Filtered(rows, ActiveFilter)) + multiset(Filtered(rows, CompletedFilter)) == multiset(rows)
    ensures |Filtered(rows, ActiveFilter)| + |Filtered(rows, CompletedFilter)| == |rows|
    ensures forall x :: !(x in Filtered(rows, ActiveFilter) && x in Filtered(rows, CompletedFilter))
  {
    Sequences.FilterSplit(rows, Selector(ActiveFilter), Selector(CompletedFilter));
  }

  /** The callback `t => !t.is_complete` of the remaining count. */
  function Incomplete(): (keep: Row -> bool)
    ensures forall row: Row :: keep(row) == Selector(ActiveFilter)(row)
  {
    (row: Row) => !row.todo.isComplete
  }

  /** `tasks.filter(t => !t.is_complete).length`: the length of the `active` view. */
  function Remaining(rows: seq<Row>): (n: nat)
    ensures n <= |rows|
    ensures n == |Filtered(rows, ActiveFilter)|
  {
    Sequences.FilterAgree(rows, Incomplete(), Selector(ActiveFilter));
    |Sequences.Filter(rows, Incomplete())|
  }

  /**
   * The remaining count is the length of the `active` view, and it and the
   * `completed` view together account for every row.
   */
  lemma RemainingIsActive(rows: seq<Row>)
    ensures Remaining(rows) == |Filtered(rows, ActiveFilter)|
    ensures Remaining(rows) + |Filtered(rows, CompletedFilter)| == |rows|
  {
    Sequences.FilterAgree(rows, Incomplete(), Selector(ActiveFilter));
    FilteredPartition(rows);
  }
}
