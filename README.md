# Todo list component: a Dafny model

This project models the state machine inside the `TodoApp` React component of a single-page todo list. The component keeps a list of tasks, each with an id, text, a completed flag, a category and a creation timestamp. It also keeps the input drafts, an edit cursor (`editingId` with its draft `editText`), a dark-mode flag, the category filter (where `'all'` means "every category") and the list of categories. Its event handlers rewrite these fields, and it derives a filtered task list and some counts for rendering.

The model has five modules:

- `Text` (`text.dfy`): JavaScript's `trim()` and `toLowerCase()`, as far as the component uses them. `IsBlank` means `s.trim() === ''`. It removes exactly ECMAScript's WhiteSpace and LineTerminator code points, and it is proved to hold exactly when every character is one of them. `Lower` lower-cases characters and is proved idempotent.
- `Seqs` (`seqs.dfy`): `Array.prototype.map` and `filter`, a counting function, and what "order-preserving subsequence" and "no duplicates" mean.
- `Todos` (`todos.dfy`): the task record, and the new lists built by `toggleTodo` (a `map`), `deleteTodo` (a `filter`) and `saveEdit` (a `map`). It also holds the rendered views: `filteredTodos`, `completedCount`, `pendingCount` and the count beside each category.
- `Categories` (`categories.dfy`): the list `addCategory` builds, and the shape that list keeps: lower-case, not blank, no repeats.
- `App` (`app.dfy`): the class `TodoApp`. It has one field per state hook and one method per handler. Each method's `modifies` clause names exactly the fields its setters write. `Valid()` is the invariant the handlers keep: the category list is well formed and holds `personal`; the filter is `'all'` or a listed category; every task has non-blank text and a listed category. A client method at the end, `EditThenDeleteScenario`, steps through an edit-then-delete sequence whose assertions the verifier checks against the handlers' contracts alone.

Each handler is one atomic transition. The clock readings behind a new task's `id` (`Date.now()`) and `createdAt` (`toISOString()`) are parameters of `AddTodo`.

Behaviour kept as the code has it:

- `deleteTodo` does not clear `editingId`, even when it deletes the task under edit. A later `saveEdit` with a non-blank draft matches no task and changes no task (`Todos.SaveAfterDeleteDoesNotResurrect`), then clears the cursor; with a blank draft it returns early and the cursor stays open.
- A new task's text is stored untrimmed. A new category is lower-cased but not trimmed.
- `'all'` is accepted as a category name. It then collides with the filter sentinel, so selecting it shows every task and new tasks get `personal`.
- The category filter is set only by the rendered buttons: "All" (`SelectAll`) and one button per listed category (`SelectCategory(i)`).
- Task ids are unique only if the clock never repeats a reading; nothing in the code checks this. The lemmas about unique ids take uniqueness, and for an added task a fresh id, as preconditions.

## Model

| member | source | states |
|---|---|---|
| `App.TodoApp.constructor` | src/App.tsx:16-23 | the initial state: no tasks, empty drafts, no edit, dark mode on, filter `'all'`, categories work/personal/shopping/health; the invariant holds |
| `App.InitialStateIsConsistent` | src/App.tsx:16-23 | the initial task list, filter and seeded categories satisfy the invariant |
| `App.TodoApp.AddTodo` | src/App.tsx:37-48 | a blank draft leaves `todos` and `newTodo` unchanged; otherwise exactly one task `{id, text: newTodo (untrimmed), completed: false, category: 'personal' under 'all' else the filter, createdAt}` is appended after the unchanged old tasks and `newTodo` becomes `''`; no other field changes; the invariant is kept |
| `Todos.CategoryFor` | src/App.tsx:43 | a new task never gets the `'all'` sentinel as its category: it gets the filter when that is a category, else `'personal'` |
| `App.AddTodoKeepsConsistent` | src/App.tsx:38-46 | appending a task with non-blank text and the category `addTodo` picks keeps the invariant |
| `Todos.AddedTodoIsVisible` | src/App.tsx:43-46 | the appended task shows up at the end of the current filtered view, after the tasks the view showed before |
| `Todos.AddFreshKeepsUniqueIds` | src/App.tsx:40-46 | appending a task whose id no task carries keeps ids unique |
| `App.TodoApp.ToggleTodo` | src/App.tsx:50-54 | `todos` becomes the toggled list; nothing else changes; the invariant is kept |
| `Todos.Toggled` | src/App.tsx:50-54 | same length and order; each task keeps id, text, category and createdAt; `completed` is flipped exactly on the tasks whose id equals `id` |
| `Todos.ToggleTwiceRestores` | src/App.tsx:50-54 | toggling the same id twice restores the original list |
| `Todos.ToggleAbsentIsNoOp` | src/App.tsx:50-54 | toggling an id no task carries leaves the list unchanged |
| `Todos.ToggleKeepsUniqueIds` | src/App.tsx:50-54 | toggling keeps ids unique |
| `Todos.ToggleMovesCompletedCountByOne` | src/App.tsx:50-54 | with unique ids, toggling a present task changes the completed count by exactly one, up if it was pending and down if it was completed |
| `App.ToggleTodoKeepsConsistent` | src/App.tsx:50-54 | toggling keeps the invariant |
| `App.TodoApp.DeleteTodo` | src/App.tsx:56-58 | `todos` becomes the filtered list; `editingId` and every other field are unchanged; the invariant is kept |
| `Todos.Removed` | src/App.tsx:56-58 | the length never grows and no remaining task carries the deleted id |
| `Todos.DeleteKeepsExactlyTheOthers` | src/App.tsx:56-58 | the result is an order-preserving subsequence of the old list with as many tasks as had a different id; it is the only subsequence with no task carrying the id and that length |
| `Todos.DeleteKeepsOtherTasks` | src/App.tsx:56-58 | every task with a different id survives |
| `Todos.DeleteAbsentIsNoOp` | src/App.tsx:56-58 | deleting an id no task carries leaves the list unchanged |
| `Todos.UniqueIdCountedOnce` | src/App.tsx:56-58 | with unique ids, a present id is carried by exactly one task |
| `Todos.AbsentIdCountedNever` | src/App.tsx:56-58 | an id no task carries is counted zero times |
| `Todos.DeletePresentRemovesOne` | src/App.tsx:56-58 | with unique ids, deleting a present id removes exactly one task |
| `Todos.DeleteKeepsUniqueIds` | src/App.tsx:56-58 | deleting keeps ids unique |
| `App.DeleteTodoKeepsConsistent` | src/App.tsx:56-58 | deleting keeps the invariant |
| `App.TodoApp.StartEdit` | src/App.tsx:60-63 | `editingId` becomes the task's id and `editText` its text; nothing else changes |
| `App.TodoApp.SaveEdit` | src/App.tsx:65-72 | a blank draft changes nothing, so the edit stays open; otherwise `todos` becomes the re-texted list and the cursor is cleared (`editingId` none, `editText` `''`); the invariant is kept |
| `Todos.Retexted` | src/App.tsx:67-69 | same length and order; each task keeps id, completed, category and createdAt; the text becomes the draft exactly on the tasks whose id equals `editingId` |
| `Todos.SaveUnmatchedIsNoOp` | src/App.tsx:67-69 | with no edit cursor, or one that matches no task, the list is unchanged |
| `Todos.SaveAfterDeleteDoesNotResurrect` | src/App.tsx:56-69 | saving an edit of a task that was deleted leaves the post-delete list unchanged |
| `Todos.SaveKeepsUniqueIds` | src/App.tsx:67-69 | saving an edit keeps ids unique |
| `App.SaveEditKeepsConsistent` | src/App.tsx:65-69 | re-texting with a non-blank draft keeps every task's text non-blank and the invariant |
| `App.TodoApp.CancelEdit` | src/App.tsx:74-77 | the cursor is cleared and `todos` is untouched |
| `App.TodoApp.AddCategory` | src/App.tsx:79-83 | `categories` becomes the list `addCategory` builds; `newCategory` is cleared exactly when the name is added; the invariant is kept |
| `Categories.Accepts` | src/App.tsx:80 | the guard of `addCategory`: an accepted name is not empty and its lower-case form is not listed; `Categories.WithCategory` proves the list grows exactly when it holds |
| `Categories.WithCategory` | src/App.tsx:79-83 | the old list is kept as a prefix and at most one name is added, exactly when the guard accepts the draft; the only name that can be added is the lower-cased draft, and it is listed afterwards whenever the draft is not blank; a duplicate-free list stays duplicate-free |
| `Categories.AddCategoryKeepsWellFormed` | src/App.tsx:79-83 | a lower-case, non-blank, duplicate-free list stays so |
| `Categories.AddCategoryIgnoresCase` | src/App.tsx:79-83 | adding a name again, in any letter case, changes nothing |
| `Categories.WellFormedIsCaseInsensitivelyUnique` | src/App.tsx:80-81 | in a well-formed list no two names differ only in letter case |
| `Categories.SeedCategoriesWellFormed` | src/App.tsx:22 | the seeded categories are lower-case, non-blank and distinct, and include `personal` |
| `App.AddCategoryKeepsConsistent` | src/App.tsx:79-83 | adding a category keeps the invariant, since every listed name stays listed |
| `App.TodoApp.ToggleDarkMode` | src/App.tsx:103 | only `darkMode` changes, to its negation |
| `App.TodoApp.SelectAll` | src/App.tsx:135 | the filter becomes `'all'` |
| `App.TodoApp.SelectCategory` | src/App.tsx:140-143 | the filter becomes the `i`-th listed category |
| `App.TodoApp.SetNewTodo` | src/App.tsx:117 | only `newTodo` changes |
| `App.TodoApp.SetEditText` | src/App.tsx:176 | only `editText` changes |
| `App.TodoApp.SetNewCategory` | src/App.tsx:260 | only `newCategory` changes |
| `Todos.Filtered` | src/App.tsx:85-87 | `filteredTodos` is never longer than the task list, and under a category filter every task in it has that category; `Todos.FilteredIsTheCategorySubsequence` characterises it exactly |
| `Todos.CategoryCount` | src/App.tsx:248 | the count beside a category is at most the number of tasks; `Todos.FilteredIsTheCategorySubsequence` proves it is the length of that category's view |
| `Todos.CompletedCount` | src/App.tsx:89 | `completedCount` is at most the number of tasks; `Todos.SummaryCountsEveryTaskOnce` proves it is the length of the completed filter |
| `Todos.PendingCount` | src/App.tsx:90 | `pendingCount` is never negative and at most the number of tasks; `Todos.SummaryCountsEveryTaskOnce` proves it counts exactly the open tasks |
| `Todos.FilteredIsTheCategorySubsequence` | src/App.tsx:85-87 | under `'all'` the view is the whole list; otherwise its length is the count shown beside that category, and it is the only order-preserving subsequence holding exactly the tasks of that category |
| `Todos.SummaryCountsEveryTaskOnce` | src/App.tsx:89-90 | `completedCount` is the length of the completed filter; `pendingCount` counts exactly the tasks not completed; the completed and the not-completed tasks together number all the tasks |
| `Seqs.Map` | src/App.tsx:51-53 | `map` keeps the length and applies the function at every index |
| `Seqs.Count` | src/App.tsx:89 | `filter(p).length` as a count: never more than the number of elements |
| `Seqs.Filter` | src/App.tsx:57 | `filter` never grows the list and keeps only elements that satisfy the predicate |
| `Seqs.FilterLength` | src/App.tsx:248 | `filter(p).length` is the number of elements satisfying `p` |
| `Seqs.CountSplit` | src/App.tsx:89-90 | the elements satisfying a predicate and those satisfying its negation together number the whole list |
| `Seqs.FilterIsTheMatchingSubsequence` | src/App.tsx:87 | `filter` returns an order-preserving subsequence of all the matching elements, and is the only such subsequence |
| `Seqs.SubsequenceCountBound` | src/App.tsx:87 | a subsequence of matching elements has at most as many elements as there are matches |
| `Seqs.FilterAppend` | src/App.tsx:46 | filtering a list extended at the end is filtering the old list, then the new element if it matches |
| `Seqs.FilterKeepsAll` | src/App.tsx:57 | filtering with a predicate every element satisfies returns the list itself |
| `Seqs.FilterKeepsMatches` | src/App.tsx:57 | filtering drops no matching element |
| `Seqs.SubsequenceElements` | src/App.tsx:57 | every element of a subsequence is in the original list |
| `Text.TrimStart` | src/App.tsx:38 | leading whitespace is removed: the result is no longer and does not start with whitespace |
| `Text.TrimEnd` | src/App.tsx:38 | trailing whitespace is removed: the result is no longer, does not end with whitespace, and keeps a first character that is not whitespace |
| `Text.Trim` | src/App.tsx:38 | `trim()`: the result is no longer than the input and neither starts nor ends with whitespace |
| `Text.IsBlank` | src/App.tsx:38 | `s.trim() === ''`: the empty string is blank and a string opening with a visible character is not; `Text.BlankIffAllWhitespace` characterises it exactly |
| `Text.BlankIffAllWhitespace` | src/App.tsx:38 | `s.trim() === ''` exactly when every character of `s` is whitespace |
| `Text.Lower` | src/App.tsx:80-81 | `toLowerCase` keeps the length and lower-cases each character |
| `Text.LowerFixesExactlyLowerCase` | src/App.tsx:80-81 | the result has no upper-case letter, and a string is unchanged exactly when it has none |
| `Text.LowerIdempotent` | src/App.tsx:80-81 | lower-casing twice is lower-casing once |
| `Text.LowerKeepsBlank` | src/App.tsx:80 | a name is blank exactly when its lower-case form is |

## Left out

- The `localStorage` effects (src/App.tsx:25-35) are browser I/O through `JSON.parse` and `JSON.stringify`. The constructor models the initial `useState` values, not a reload. After a reload the invariant need not hold: loaded tasks may carry categories the fresh category list lacks, because categories are not persisted. Every handler requires `Valid()`, so no handler contract speaks about such a reloaded state.
- `Date.now()` and `new Date().toISOString()` read the clock. They are the `now` and `createdAt` parameters of `AddTodo`. JavaScript numbers are modelled as unbounded integers.
- React's batched, asynchronous state updates are not modelled. Each handler is one atomic step over the current state.
- The JSX markup, styling, icons and Enter-key wiring (src/App.tsx:92-287) are not modelled. Only the handlers those elements call are.
- Text.Lower: lower-cases only the ASCII letters A-Z. JavaScript's `toLowerCase` also maps other Unicode letters, and can change a string's length. The properties the component relies on are proved for the ASCII model: idempotence, and keeping blankness.
- Strings are sequences of Unicode scalar values, not UTF-16 code units, so lone surrogates cannot be expressed.
- Text.TrimStart: its contract does not state that the result is a suffix of the input. Only the length bound and the absence of leading whitespace are stated.
- Text.TrimEnd: its contract does not state that the result is a prefix of the input. Only the length bound, the absence of trailing whitespace and the kept first character are stated.
- Text.Trim: its contract does not state that the result is a slice of the input. The component only compares the trimmed value with `''`, and `Text.BlankIffAllWhitespace` states that comparison exactly.
