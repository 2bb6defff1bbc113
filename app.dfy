/**
 * The `TodoApp` component's state and event handlers. Each React state hook
 * is a field; each handler is a method that overwrites the fields its setters
 * touch and no others, in one atomic step.
 */
module App {
  import opened Seqs
  import opened Text
  import opened Todos
  import opened Categories

  /**
   * What the handlers keep true of the state: the category list is well
   * formed and holds the default category, the filter is "all" or a listed
   * category, and every task has non-blank text and a listed category.
   */
  predicate Consistent(todos: seq<Todo>, selected: string, categories: seq<string>) {
    WellFormed(categories) && DefaultCategory in categories
    && (selected == AllCategories || selected in categories)
    && TasksFit(todos, categories)
  }

  /** Every task has non-blank text and a listed category. */
  predicate TasksFit(todos: seq<Todo>, categories: seq<string>) {
    forall t :: t in todos ==> !IsBlank(t.text) && t.category in categories
  }

  /** The component's initial state is consistent. */
  lemma InitialStateIsConsistent()
    ensures Consistent([], AllCategories, SeedCategories)
  {
    SeedCategoriesWellFormed();
  }

  /** The task `addTodo` appends fits: its text passed the blank check and its category is listed. */
  lemma AddTodoKeepsConsistent(todos: seq<Todo>, selected: string, categories: seq<string>, t: Todo)
    requires Consistent(todos, selected, categories)
    requires !IsBlank(t.text) && t.category == CategoryFor(selected)
    ensures Consistent(todos + [t], selected, categories)
  {
  }

  lemma ToggleTodoKeepsConsistent(todos: seq<Todo>, selected: string, categories: seq<string>, id: int)
    requires Consistent(todos, selected, categories)
    ensures Consistent(Toggled(todos, id), selected, categories)
  {
    var r := Toggled(todos, id);
    forall t | t in r ensures !IsBlank(t.text) && t.category in categories {
      var i :| 0 <= i < |r| && r[i] == t;
      assert todos[i] in todos;
    }
  }

  lemma DeleteTodoKeepsConsistent(todos: seq<Todo>, selected: string, categories: seq<string>, id: int)
    requires Consistent(todos, selected, categories)
    ensures Consistent(Removed(todos, id), selected, categories)
  {
    var r := Removed(todos, id);
    FilterIsSubsequence(todos, OtherId(id));
    forall t | t in r ensures t in todos {
      SubsequenceElements(r, todos, t);
    }
  }

  /** Saving a non-blank draft keeps every task's text non-blank. */
  lemma SaveEditKeepsConsistent(todos: seq<Todo>, selected: string, categories: seq<string>,
                                editingId: Option<int>, text: string)
    requires Consistent(todos, selected, categories) && !IsBlank(text)
    ensures Consistent(Retexted(todos, editingId, text), selected, categories)
  {
    var r := Retexted(todos, editingId, text);
    forall t | t in r ensures !IsBlank(t.text) && t.category in categories {
      var i :| 0 <= i < |r| && r[i] == t;
      assert todos[i] in todos;
    }
  }

  /** Categories are only ever appended, so whatever was listed stays listed. */
  lemma AddCategoryKeepsConsistent(todos: seq<Todo>, selected: string, categories: seq<string>, name: string)
    requires Consistent(todos, selected, categories)
    ensures Consistent(todos, selected, WithCategory(categories, name))
  {
    var r := WithCategory(categories, name);
    AddCategoryKeepsWellFormed(categories, name);
    assert forall c :: c in categories ==> c in r by {
      forall c | c in categories ensures c in r {
        var i :| 0 <= i < |categories| && categories[i] == c;
        assert r[i] == c;
      }
    }
  }

  class TodoApp {
    var todos: seq<Todo>
    var newTodo: string
    var editingId: Option<int>
    var editText: string
    var darkMode: bool
    var selectedCategory: string
    var categories: seq<string>
    var newCategory: string

    ghost predicate Valid()
      reads this`todos, this`selectedCategory, this`categories
    {
      Consistent(todos, selectedCategory, categories)
    }

    /** The initial values of the state hooks. */
    constructor ()
      ensures Valid()
      ensures todos == [] && newTodo == "" && editingId == None && editText == ""
      ensures darkMode && selectedCategory == AllCategories
      ensures categories == SeedCategories && newCategory == ""
    {
      todos := [];
      newTodo := "";
      editingId := None;
      editText := "";
      darkMode := true;
      selectedCategory := AllCategories;
      categories := SeedCategories;
      newCategory := "";
      InitialStateIsConsistent();
    }

    /** `addTodo`, with the clock readings for `id` and `createdAt` passed in. */
    method AddTodo(now: int, createdAt: string)
      requires Valid()
      modifies this`todos, this`newTodo
      ensures Valid()
      ensures IsBlank(old(newTodo)) ==> todos == old(todos) && newTodo == old(newTodo)
      ensures !IsBlank(old(newTodo)) ==>
        todos == old(todos) + [Todo(now, old(newTodo), false, CategoryFor(selectedCategory), createdAt)]
        && newTodo == ""
    {
      if IsBlank(newTodo) {
        return;
      }
      var todo := Todo(now, newTodo, false, CategoryFor(selectedCategory), createdAt);
      AddTodoKeepsConsistent(todos, selectedCategory, categories, todo);
      todos := todos + [todo];
      newTodo := "";
    }

    /** `toggleTodo(id)` */
    method ToggleTodo(id: int)
      requires Valid()
      modifies this`todos
      ensures Valid()
      ensures todos == Toggled(old(todos), id)
    {
      ToggleTodoKeepsConsistent(todos, selectedCategory, categories, id);
      todos := Toggled(todos, id);
    }

    /** `deleteTodo(id)`; the edit cursor is left as it was, even when it names the deleted task. */
    method DeleteTodo(id: int)
      requires Valid()
      modifies this`todos
      ensures Valid()
      ensures todos == Removed(old(todos), id)
    {
      DeleteTodoKeepsConsistent(todos, selectedCategory, categories, id);
      todos := Removed(todos, id);
    }

    /** `startEdit(todo)` */
    method StartEdit(todo: Todo)
      requires Valid()
      modifies this`editingId, this`editText
      ensures Valid()
      ensures editingId == Some(todo.id) && editText == todo.text
    {
      editingId := Some(todo.id);
      editText := todo.text;
    }

    /** `saveEdit`: a blank draft changes nothing and keeps the edit open. */
    method SaveEdit()
      requires Valid()
      modifies this`todos, this`editingId, this`editText
      ensures Valid()
      ensures IsBlank(old(editText)) ==>
        todos == old(todos) && editingId == old(editingId) && editText == old(editText)
      ensures !IsBlank(old(editText)) ==>
        todos == Retexted(old(todos), old(editingId), old(editText)) && editingId == None && editText == ""
    {
      if IsBlank(editText) {
        return;
      }
      SaveEditKeepsConsistent(todos, selectedCategory, categories, editingId, editText);
      todos := Retexted(todos, editingId, editText);
      editingId := None;
      editText := "";
    }

    /** `cancelEdit` */
    method CancelEdit()
      requires Valid()
      modifies this`editingId, this`editText
      ensures Valid()
      ensures editingId == None && editText == ""
    {
      editingId := None;
      editText := "";
    }

    /** `addCategory`: the draft is cleared exactly when the name is added. */
    method AddCategory()
      requires Valid()
      modifies this`categories, this`newCategory
      ensures Valid()
      ensures categories == WithCategory(old(categories), old(newCategory))
      ensures newCategory == if Accepts(old(categories), old(newCategory)) then "" else old(newCategory)
    {
      if IsBlank(newCategory) || Lower(newCategory) in categories {
        return;
      }
      AddCategoryKeepsConsistent(todos, selectedCategory, categories, newCategory);
      categories := categories + [Lower(newCategory)];
      newCategory := "";
    }

    /** The theme button: `setDarkMode(!darkMode)`. */
    method ToggleDarkMode()
      requires Valid()
      modifies this`darkMode
      ensures Valid()
      ensures darkMode == !old(darkMode)
    {
      darkMode := !darkMode;
    }

    /** The "All" filter button. */
    method SelectAll()
      requires Valid()
      modifies this`selectedCategory
      ensures Valid()
      ensures selectedCategory == AllCategories
    {
      selectedCategory := AllCategories;
    }

    /** The filter button rendered for the `i`-th category. */
    method SelectCategory(i: nat)
      requires Valid() && i < |categories|
      modifies this`selectedCategory
      ensures Valid()
      ensures selectedCategory == categories[i]
    {
      selectedCategory := categories[i];
    }

    /** The `onChange` of the new-task input. */
    method SetNewTodo(value: string)
      requires Valid()
      modifies this`newTodo
      ensures Valid()
      ensures newTodo == value
    {
      newTodo := value;
    }

    /** The `onChange` of the edit input. */
    method SetEditText(value: string)
      requires Valid()
      modifies this`editText
      ensures Valid()
      ensures editText == value
    {
      editText := value;
    }

    /** The `onChange` of the new-category input. */
    method SetNewCategory(value: string)
      requires Valid()
      modifies this`newCategory
      ensures Valid()
      ensures newCategory == value
    {
      newCategory := value;
    }
  }

  /** "Task A" passes the blank check. */
  lemma TaskANotBlank()
    ensures !IsBlank("Task A")
  {
    BlankIffAllWhitespace("Task A");
    assert !IsWhitespace("Task A"[0]);
  }

  /**
   * A client that uses only the handlers' contracts: saving a blank draft
   * keeps the edit open and the text unchanged; deleting the task under edit
   * leaves the cursor pointing at it, and a later save brings nothing back.
   */
  method EditThenDeleteScenario()
  {
    var app := new TodoApp();
    app.SetNewTodo("Task A");
    TaskANotBlank();
    app.AddTodo(1, "1970-01-01T00:00:00.001Z");
    assert app.todos == [Todo(1, "Task A", false, DefaultCategory, "1970-01-01T00:00:00.001Z")];

    app.StartEdit(app.todos[0]);
    app.SetEditText("  ");
    assert IsBlank("  ") by {
      BlankIffAllWhitespace("  ");
    }
    app.SaveEdit();
    assert app.todos[0].text == "Task A" && app.editingId == Some(1);

    app.DeleteTodo(1);
    assert app.todos == [];
    assert app.editingId == Some(1);

    app.SetEditText("Task A");
    app.SaveEdit();
    assert app.todos == [] && app.editingId == None;
  }
}
