/**
 * The task list of the todo component as a value: the record it stores, the
 * new lists that `toggleTodo`, `deleteTodo` and `saveEdit` build with `map`
 * and `filter`, and the views the component derives for rendering (the
 * filtered list, the completed and pending counts, the per-category count).
 */
module Todos {
  import opened Seqs
  import opened Text

  datatype Option<T> = None | Some(value: T)

  /**
   * One task. `id` is the `Date.now()` reading taken when it was added and
   * `createdAt` the matching ISO-8601 timestamp; both are supplied by the caller.
   */
  datatype Todo = Todo(id: int, text: string, completed: bool, category: string, createdAt: string)

  /** The filter value that stands for "every category". */
  const AllCategories: string := "all"
  /** The category a task gets when it is added while the filter shows every category. */
  const DefaultCategory: string := "personal"
  /** The categories the component starts with. */
  const SeedCategories: seq<string> := ["work", "personal", "shopping", "health"]

  /** The category `addTodo` gives a new task under the filter `selected`. */
  function CategoryFor(selected: string): (r: string)
    ensures r != AllCategories
    ensures selected != AllCategories ==> r == selected
  {
    if selected == AllCategories then DefaultCategory else selected
  }

  /** Every task id occurs once. The component does not enforce this; the lemmas below say what keeps it. */
  predicate UniqueIds(todos: seq<Todo>) {
    forall i, j :: 0 <= i < j < |todos| ==> todos[i].id != todos[j].id
  }

  /** No task carries `id`. */
  predicate IsAbsentId(todos: seq<Todo>, id: int) {
    forall i :: 0 <= i < |todos| ==> todos[i].id != id
  }

  // ---------------------------------------------------------------- addTodo

  /** A task added with an id no task carries keeps the ids unique. */
  lemma AddFreshKeepsUniqueIds(todos: seq<Todo>, t: Todo)
    requires UniqueIds(todos) && IsAbsentId(todos, t.id)
    ensures UniqueIds(todos + [t])
  {
  }

  /** The task `addTodo` appends shows up at the end of the view the user is looking at. */
  lemma {:induction false} AddedTodoIsVisible(todos: seq<Todo>, t: Todo, selected: string)
    requires t.category == CategoryFor(selected)
    ensures Filtered(todos + [t], selected) == Filtered(todos, selected) + [t]
  {
    if selected != AllCategories {
      FilterAppend(todos, t, InCategory(selected));
    }
  }

  // ------------------------------------------------------------- toggleTodo

  function ToggleIf(id: int): Todo -> Todo {
    (t: Todo) => if t.id == id then t.(completed := !t.completed) else t
  }

  /** `todos.map(todo => todo.id === id ? {...todo, completed: !todo.completed} : todo)` */
  function Toggled(todos: seq<Todo>, id: int): (r: seq<Todo>)
    ensures |r| == |todos|
    ensures forall i :: 0 <= i < |todos| ==>
      r[i].id == todos[i].id && r[i].text == todos[i].text &&
      r[i].category == todos[i].category && r[i].createdAt == todos[i].createdAt &&
      (r[i].completed <==> (todos[i].completed != (todos[i].id == id)))
  {
    Map(todos, ToggleIf(id))
  }

  /** Toggling the same id twice gives back the original list. */
  lemma ToggleTwiceRestores(todos: seq<Todo>, id: int)
    ensures Toggled(Toggled(todos, id), id) == todos
  {
    var r := Toggled(Toggled(todos, id), id);
    assert forall i :: 0 <= i < |todos| ==> r[i] == todos[i];
  }

  /** Toggling an id no task carries changes nothing. */
  lemma ToggleAbsentIsNoOp(todos: seq<Todo>, id: int)
    requires IsAbsentId(todos, id)
    ensures Toggled(todos, id) == todos
  {
    var r := Toggled(todos, id);
    assert forall i :: 0 <= i < |todos| ==> r[i] == todos[i];
  }

  /** Toggling keeps every id in place, so unique ids stay unique. */
  lemma ToggleKeepsUniqueIds(todos: seq<Todo>, id: int)
    requires UniqueIds(todos)
    ensures UniqueIds(Toggled(todos, id))
  {
  }

  /**
   * With unique ids, toggling the task at `k` moves the completed count by
   * exactly one, up if it was pending and down if it was completed.
   */
  lemma {:induction false} ToggleMovesCompletedCountByOne(todos: seq<Todo>, id: int, k: nat)
    requires UniqueIds(todos) && k < |todos| && todos[k].id == id
    ensures CompletedCount(Toggled(todos, id)) == CompletedCount(todos) + (if todos[k].completed then -1 else 1)
  {
    var r := Toggled(todos, id);
    assert r[1..] == Toggled(todos[1..], id);
    if k == 0 {
      ToggleAbsentIsNoOp(todos[1..], id);
    } else {
      ToggleMovesCompletedCountByOne(todos[1..], id, k - 1);
    }
  }

  // ------------------------------------------------------------- deleteTodo

  function OtherId(id: int): Todo -> bool {
    (t: Todo) => t.id != id
  }

  function HasId(id: int): Todo -> bool {
    (t: Todo) => t.id == id
  }

  /** `todos.filter(todo => todo.id !== id)` */
  function Removed(todos: seq<Todo>, id: int): (r: seq<Todo>)
    ensures |r| <= |todos|
    ensures IsAbsentId(r, id)
  {
    Filter(todos, OtherId(id))
  }

  /**
   * The list `deleteTodo` leaves is the one order-preserving subsequence of
   * the old list that holds every task whose id differs from `id`, and only those.
   */
  lemma DeleteKeepsExactlyTheOthers(todos: seq<Todo>, id: int, r: seq<Todo>)
    ensures IsSubsequence(Removed(todos, id), todos)
    ensures |Removed(todos, id)| == |todos| - Count(todos, HasId(id))
    ensures IsSubsequence(r, todos) && IsAbsentId(r, id) && |r| == |todos| - Count(todos, HasId(id))
            <==> r == Removed(todos, id)
  {
    CountSplit(todos, HasId(id), OtherId(id));
    FilterIsTheMatchingSubsequence(todos, OtherId(id), r);
  }

  /** Every task with another id survives a delete. */
  lemma DeleteKeepsOtherTasks(todos: seq<Todo>, id: int, t: Todo)
    requires t in todos && t.id != id
    ensures t in Removed(todos, id)
  {
    FilterKeepsMatches(todos, OtherId(id), t);
  }

  /** Deleting an id no task carries changes nothing. */
  lemma DeleteAbsentIsNoOp(todos: seq<Todo>, id: int)
    requires IsAbsentId(todos, id)
    ensures Removed(todos, id) == todos
  {
    FilterKeepsAll(todos, OtherId(id));
  }

  lemma {:induction false} UniqueIdCountedOnce(todos: seq<Todo>, id: int, k: nat)
    requires UniqueIds(todos) && k < |todos| && todos[k].id == id
    ensures Count(todos, HasId(id)) == 1
  {
    if k == 0 {
      AbsentIdCountedNever(todos[1..], id);
    } else {
      UniqueIdCountedOnce(todos[1..], id, k - 1);
    }
  }

  lemma {:induction false} AbsentIdCountedNever(todos: seq<Todo>, id: int)
    requires IsAbsentId(todos, id)
    ensures Count(todos, HasId(id)) == 0
  {
    if todos != [] {
      AbsentIdCountedNever(todos[1..], id);
    }
  }

  /** With unique ids, deleting an id that is present removes exactly one task. */
  lemma DeletePresentRemovesOne(todos: seq<Todo>, id: int, k: nat)
    requires UniqueIds(todos) && k < |todos| && todos[k].id == id
    ensures |Removed(todos, id)| == |todos| - 1
  {
    UniqueIdCountedOnce(todos, id, k);
    DeleteKeepsExactlyTheOthers(todos, id, []);
  }

  /** Deleting keeps unique ids unique. */
  lemma {:induction false} DeleteKeepsUniqueIds(todos: seq<Todo>, id: int)
    requires UniqueIds(todos)
    ensures UniqueIds(Removed(todos, id))
  {
    if todos != [] {
      var rest := Removed(todos[1..], id);
      DeleteKeepsUniqueIds(todos[1..], id);
      if todos[0].id != id {
        FilterIsSubsequence(todos[1..], OtherId(id));
        forall j | 0 <= j < |rest| ensures rest[j].id != todos[0].id {
          SubsequenceElements(rest, todos[1..], rest[j]);
        }
      }
    }
  }

  // --------------------------------------------------------------- saveEdit

  function RetextIf(editingId: Option<int>, text: string): Todo -> Todo {
    (t: Todo) => if editingId == Some(t.id) then t.(text := text) else t
  }

  /** `todos.map(todo => todo.id === editingId ? {...todo, text: editText} : todo)` */
  function Retexted(todos: seq<Todo>, editingId: Option<int>, text: string): (r: seq<Todo>)
    ensures |r| == |todos|
    ensures forall i :: 0 <= i < |todos| ==>
      r[i].id == todos[i].id && r[i].completed == todos[i].completed &&
      r[i].category == todos[i].category && r[i].createdAt == todos[i].createdAt &&
      r[i].text == (if editingId == Some(todos[i].id) then text else todos[i].text)
  {
    Map(todos, RetextIf(editingId, text))
  }

  /** Saving while no task carries the edited id (or nothing is being edited) changes no task. */
  lemma SaveUnmatchedIsNoOp(todos: seq<Todo>, editingId: Option<int>, text: string)
    requires editingId.None? || IsAbsentId(todos, editingId.value)
    ensures Retexted(todos, editingId, text) == todos
  {
    var r := Retexted(todos, editingId, text);
    assert forall i :: 0 <= i < |todos| ==> r[i] == todos[i];
  }

  /** Saving an edit after its task was deleted does not bring the task back. */
  lemma SaveAfterDeleteDoesNotResurrect(todos: seq<Todo>, id: int, text: string)
    ensures Retexted(Removed(todos, id), Some(id), text) == Removed(todos, id)
  {
    SaveUnmatchedIsNoOp(Removed(todos, id), Some(id), text);
  }

  /** Saving an edit keeps every id in place, so unique ids stay unique. */
  lemma SaveKeepsUniqueIds(todos: seq<Todo>, editingId: Option<int>, text: string)
    requires UniqueIds(todos)
    ensures UniqueIds(Retexted(todos, editingId, text))
  {
  }

  // ------------------------------------------------------------------ views

  function InCategory(c: string): Todo -> bool {
    (t: Todo) => t.category == c
  }

  predicate IsDone(t: Todo) {
    t.completed
  }

  predicate IsOpen(t: Todo) {
    !t.completed
  }

  /** `filteredTodos`: every task under "all", else the tasks whose category is exactly `selected`. */
  function Filtered(todos: seq<Todo>, selected: string): (r: seq<Todo>)
    ensures |r| <= |todos|
    ensures selected != AllCategories ==> forall i :: 0 <= i < |r| ==> r[i].category == selected
  {
    if selected == AllCategories then todos else Filter(todos, InCategory(selected))
  }

  /** The count shown beside category `c`: `todos.filter(t => t.category === c).length`. */
  function CategoryCount(todos: seq<Todo>, c: string): (r: nat)
    ensures r <= |todos|
  {
    Count(todos, InCategory(c))
  }

  /** `completedCount`: `todos.filter(todo => todo.completed).length`. */
  function CompletedCount(todos: seq<Todo>): (r: nat)
    ensures r <= |todos|
  {
    Count(todos, IsDone)
  }

  /** `pendingCount`: `todos.length - completedCount`. */
  function PendingCount(todos: seq<Todo>): (r: int)
    ensures 0 <= r <= |todos|
  {
    |todos| - CompletedCount(todos)
  }

  /**
   * Under a category filter the view is the one order-preserving subsequence
   * holding exactly the tasks of that category, and it has as many tasks as
   * the count shown beside the category. Under "all" it is the whole list.
   */
  lemma FilteredIsTheCategorySubsequence(todos: seq<Todo>, selected: string, r: seq<Todo>)
    ensures selected == AllCategories ==> Filtered(todos, selected) == todos
    ensures selected != AllCategories ==> |Filtered(todos, selected)| == CategoryCount(todos, selected)
    ensures selected != AllCategories ==>
      (IsSubsequence(r, todos) && (forall i :: 0 <= i < |r| ==> r[i].category == selected)
       && |r| == CategoryCount(todos, selected)
       <==> r == Filtered(todos, selected))
  {
    FilterIsTheMatchingSubsequence(todos, InCategory(selected), r);
  }

  /** The two counts in the header add up to the number of tasks, and "pending" counts exactly the open ones. */
  lemma SummaryCountsEveryTaskOnce(todos: seq<Todo>)
    ensures CompletedCount(todos) == |Filter(todos, IsDone)|
    ensures PendingCount(todos) == Count(todos, IsOpen)
    ensures CompletedCount(todos) + Count(todos, IsOpen) == |todos|
  {
    FilterLength(todos, IsDone);
    CountSplit(todos, IsDone, IsOpen);
  }
}
