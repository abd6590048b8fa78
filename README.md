# Todo list store and view logic, modelled in Dafny

This project models the sequential core of a single-page to-do list. The list
is a flat sequence of items keyed by `id`.

- **The store** (`src/features/todo/todoSlice.ts`) holds `{ todos, todo, status }`.
  Each of the five async operations (add, list, get-one, delete, update) has a
  `pending`, a `fulfilled` and a `rejected` case reducer. A synchronous
  `toggleEditable` flips an item's edit-mode flag. The store is the class
  `TodoSlice.TodoStore`, with one method per case reducer. Every method's
  `ensures` states the whole new state, in terms of the old one and of pure
  list functions (`ToggleEditableIn`, `ReplaceFirst`, `RemoveId`). The lemmas
  beside them prove what those list functions mean.
- **The view** (`src/features/todo/Todo.tsx`) contributes pure list helpers:
  `findIndex`, the All/Done/Undone filter, the completed-count `reduce`, and the
  records built by `toggleComplete` and `saveEditedTodo`. It also contributes
  the input guards of the add box (`onSave`) and of the edit box
  (`handleSave`, `handleKeyDown`). The guards are methods of the classes
  `TodoView.TodoComponent` and `TodoView.EditTodo`, which hold the components'
  local state.

Files:

- `lists.dfy` (module `Lists`): `Array.prototype.filter` as `Filter`. It is
  used by the delete reducer and by the view's filter.
- `todo_types.dfy` (module `TodoTypes`): the item, its id, the status flag and
  the id lookup `IndexOf`.
- `todo_slice.dfy` (module `TodoSlice`): the store.
- `todo_view.dfy` (module `TodoView`): the view logic.

Modelling choices:

- `ID` is `Num(int) | Str(string)`. Strict equality never equates a number
  with a string, and neither does datatype equality.
- The optional `id` is an `Option<ID>`. Update-fulfilled matches on
  `payload.id` as an `Option`, so an absent payload id matches the first item
  without an id, as `undefined === undefined` does. `toggleEditable` and the
  view match on `Some(id)`.
- The optional `isEditable` is an `Option<bool>`, read through `Truthy`, so
  `!undefined` is `true`.
- `todo: null` is `None`.
- `dispatch(...)` and the `onSave` prop are modelled as the handler's return
  value: the argument that would be dispatched or passed, or `None`.
- Where `findIndex` would return -1 and the source would index out of range,
  the model requires instead that a matching id exists (`HasKey`).

Delete-fulfilled removes every item whose id equals the payload
(`todoSlice.ts:119`), not just one; with unique ids this is exactly one item
(`RemoveUniqueId`). Toggle-complete negates `completed`, so applying it twice
gives back the original list (`ToggleCompleteTwice`).

## Model

| member | source | states |
|---|---|---|
| `TodoTypes.IndexOf` | src/features/todo/todoSlice.ts:129 | the result is -1 exactly when no item's id equals the key; otherwise it is the least index whose item's id equals the key |
| `TodoSlice.TodoStore.constructor` | src/features/todo/todoSlice.ts:26-30 | the initial state has no items, `todo` is null and the status is idle |
| `TodoSlice.ToggleEditableIn` | src/features/todo/todoSlice.ts:77-80 | only the first item with the id changes, and only its `isEditable`, which becomes the negation of its truthiness; the length stays the same |
| `TodoSlice.TodoStore.ToggleEditable` | src/features/todo/todoSlice.ts:77-80 | given that some item has the id, `todos` becomes `ToggleEditableIn(old todos, id)`; `todo` and `status` are untouched |
| `TodoSlice.EditableToggledTwice` | src/features/todo/todoSlice.ts:79 | negating one item's edit flag twice restores the item when the flag was defined; an undefined flag comes back as `false` |
| `TodoSlice.ToggleEditableTwice` | src/features/todo/todoSlice.ts:77-80 | `toggleEditable` applied twice with the same id restores the list when the flag was defined; otherwise only that flag changes, from undefined to `false` |
| `TodoSlice.TodoStore.Pending` | src/features/todo/todoSlice.ts:84-86 | status becomes loading and `todos` and `todo` are unchanged; this is the same for all five pending cases (also lines 94-96, 104-106, 114-116, 124-126) |
| `TodoSlice.TodoStore.Rejected` | src/features/todo/todoSlice.ts:91-93 | status becomes failed and `todos` and `todo` are unchanged, with no rollback; this is the same for all five rejected cases (also lines 101-103, 111-113, 121-123, 132-134) |
| `TodoSlice.TodoStore.AddFulfilled` | src/features/todo/todoSlice.ts:87-90 | status becomes idle; `todos` becomes the old list followed by the payload, one longer with the old prefix preserved; `todo` is unchanged |
| `TodoSlice.TodoStore.ListFulfilled` | src/features/todo/todoSlice.ts:97-100 | status becomes idle and `todos` is replaced wholesale by the payload; `todo` is unchanged |
| `TodoSlice.TodoStore.GetOneFulfilled` | src/features/todo/todoSlice.ts:107-110 | status becomes idle and `todo` becomes the payload; `todos` is never changed |
| `TodoSlice.RemoveId` | src/features/todo/todoSlice.ts:119 | the result is an order-preserving subsequence of the list; no remaining item has the payload id; every item with another id keeps its multiplicity |
| `TodoSlice.TodoStore.DeleteFulfilled` | src/features/todo/todoSlice.ts:117-120 | status becomes idle and `todos` becomes `RemoveId(old todos, payload)`; `todo` is unchanged |
| `TodoSlice.RemoveUniqueId` | src/features/todo/todoSlice.ts:117-120 | in a list with unique ids that holds the id, delete-fulfilled removes exactly one item |
| `TodoSlice.DeletePayload` | src/features/todo/todoSlice.ts:61 | the delete payload is the requested id when the response body is truthy and the number -1 otherwise |
| `TodoSlice.FalsyDeleteBody` | src/features/todo/todoSlice.ts:61 | with a falsy response body the payload is -1: only items whose id is the number -1 are dropped, so a list without such an item is left unchanged |
| `TodoSlice.ReplaceFirst` | src/features/todo/todoSlice.ts:129-130 | the first item whose id equals the payload's id is replaced by the payload; every other position and the length are unchanged |
| `TodoSlice.TodoStore.UpdateFulfilled` | src/features/todo/todoSlice.ts:127-131 | given that some item's id equals the payload's id, status becomes idle and `todos` becomes `ReplaceFirst(old todos, payload)`; `todo` is unchanged |
| `TodoSlice.SameIdsSameIndex` | src/features/todo/todoSlice.ts:129 | the id lookup depends only on the ids: two lists with the same ids at every position give the same index for every key |
| `TodoSlice.ToggleEditableKeepsIds` | src/features/todo/todoSlice.ts:77-80 | `toggleEditable` leaves every item's id in place, so it preserves the invariant that no two persisted items share an id |
| `TodoSlice.UpdateKeepsIds` | src/features/todo/todoSlice.ts:127-131 | update-fulfilled leaves every item's id in place, since the payload's id is the replaced item's id, so it preserves the invariant that no two persisted items share an id |
| `TodoSlice.AddKeepsIdsUnique` | src/features/todo/todoSlice.ts:87-90 | given the server's guarantee that a created item's id is not already in the list, add-fulfilled preserves the invariant that no two persisted items share an id; list-fulfilled (lines 97-100) keeps it exactly when the server's list has unique ids |
| `TodoSlice.DeleteKeepsIdsUnique` | src/features/todo/todoSlice.ts:117-120 | delete-fulfilled preserves the invariant that no two persisted items share an id |
| `Lists.Filter` | src/features/todo/todoSlice.ts:119 | the filtered list is no longer than the input, and everything in it is in the input and passes the predicate |
| `Lists.FilterIsSubsequence` | src/features/todo/Todo.tsx:113-114 | filtering keeps the relative order of the kept items |
| `Lists.FilterMultiset` | src/features/todo/Todo.tsx:113-114 | filtering keeps every passing item with its multiplicity and drops every other item |
| `Lists.FilterPartition` | src/features/todo/Todo.tsx:91 | filtering by a predicate and by its negation gives two lists whose lengths sum to the input's length |
| `Lists.FilterKeepsAll` | src/features/todo/Todo.tsx:91 | a filter that every item passes returns the list unchanged |
| `TodoView.FindIndex` | src/features/todo/Todo.tsx:88 | the result is -1 exactly when no item has the id; otherwise it is the least index whose item has the id |
| `TodoView.Displayed` | src/features/todo/Todo.tsx:113-114 | the displayed list is an order-preserving subsequence of `todos` that holds every item the filter predicate keeps, with its multiplicity, and nothing else |
| `TodoView.DisplayedAll` | src/features/todo/Todo.tsx:91 | "All", or any text other than "Done" and "Undone", displays `todos` unchanged |
| `TodoView.DoneUndonePartition` | src/features/todo/Todo.tsx:91 | "Done" shows only completed items and "Undone" only the others; no item is in both lists, and their lengths sum to `todos.length` |
| `TodoView.Keep` | src/features/todo/Todo.tsx:91 | an item is shown unless the filter is "Done" and the item is not completed, or the filter is "Undone" and the item is completed; any other text shows every item |
| `TodoView.CountFrom` | src/features/todo/Todo.tsx:103 | the fold started from accumulator `ac` returns at least `ac` and at most `ac` plus the list length |
| `TodoView.CountFromIsDoneLength` | src/features/todo/Todo.tsx:103 | the reduce adds to its accumulator the number of completed items |
| `TodoView.CompletedCount` | src/features/todo/Todo.tsx:102-103 | the completed count equals the length of the "Done" list, so it is at most `todos.length` |
| `TodoView.ToggleComplete` | src/features/todo/Todo.tsx:68-76 | the record sent is the first item with the id, with `completed` negated and every other field the same |
| `TodoView.ToggleCompleteTwice` | src/features/todo/Todo.tsx:68-76 | assuming the server's update response echoes the record it was sent, toggling completion twice, each time through the store's update-fulfilled, gives back the original list |
| `TodoView.SaveEditedTodo` | src/features/todo/Todo.tsx:79-85 | the record sent is the given item with `isEditable` false and every other field the same |
| `TodoView.SaveEditedLeavesEditMode` | src/features/todo/Todo.tsx:79-85 | assuming the server's update response echoes the record it was sent, once the store applies an edit-save for an item it holds, that item has the edited title and is out of edit mode, and no other item changes |
| `TodoView.TodoComponent.constructor` | src/features/todo/Todo.tsx:27-28 | the component starts with the "All" filter and an empty add box |
| `TodoView.TodoComponent.OnChangeFilter` | src/features/todo/Todo.tsx:34-36 | the selected filter becomes the chosen title; the add box is unchanged |
| `TodoView.TodoComponent.OnAddInputChange` | src/features/todo/Todo.tsx:52-55 | the add box takes the typed value; the filter is unchanged |
| `TodoView.NewItem` | src/features/todo/Todo.tsx:41-45 | the new item has the typed title, no id, is not completed and has `isEditable` false |
| `TodoView.TodoComponent.OnSave` | src/features/todo/Todo.tsx:39-49 | on Enter with a non-empty input, a new item is dispatched with the input as title, not completed and not editable, and the input is cleared; otherwise nothing is dispatched and nothing changes |
| `TodoView.EditTodo.constructor` | src/features/todo/Todo.tsx:238 | the edit box starts with a copy of the item being edited |
| `TodoView.EditTodo.OnChange` | src/features/todo/Todo.tsx:240-246 | the copy takes the typed title and keeps every other field |
| `TodoView.EditTodo.HandleSave` | src/features/todo/Todo.tsx:248-252 | the Save button passes the edited copy to `onSave` if and only if its title is non-empty |
| `TodoView.EditTodo.HandleKeyDown` | src/features/todo/Todo.tsx:254-258 | a key press passes the edited copy to `onSave` if and only if the key is Enter and the title is non-empty |

## Left out

- The HTTP client (`src/features/todo/todoAPI.ts`) is left out: `fetch`, headers, URLs, response-text parsing and error messages. The model takes each fulfilled payload as given, and takes the truthiness of the delete response body as a boolean parameter of `DeletePayload`.
- Redux Toolkit and React machinery is left out: `createAsyncThunk`, `createSlice`, Immer drafts, `useEffect`, `useState`, `dispatch` and the `selectTodos`/`selectStatus` selectors. Each case reducer is a plain state transition. A dispatch is the value a handler returns. The list load on mount (`Todo.tsx:30-32`) is not modelled.
- Races between overlapping requests are left out. They are concurrency, and the code does nothing to order them.
- The progress percentage (`Todo.tsx:162-172`) is left out because it is floating point, `NaN` when the list is empty, and formatted with `toFixed(2)`. Only the integer completed count is modelled.
- Rendering is left out: JSX, CSS, icons, the `Filter` and `Popover` markup, and `Math.random()` keys.
- `src/App.tsx` is left out; it only composes components.
- The out-of-range indexing when no id matches (`todoSlice.ts:79`, `todoSlice.ts:130`, `Todo.tsx:70`) is left out. `TodoSlice.TodoStore.ToggleEditable`, `TodoSlice.TodoStore.UpdateFulfilled` and `TodoView.ToggleComplete` require instead that a matching id exists.
- JavaScript numbers used as ids are modelled as mathematical integers. Fractional ids and `NaN` (which is never strictly equal to itself) are not modelled.
- `EditTodo`'s default `onSave = () => {}` is not modelled. A handler returns what it would pass to `onSave`, whoever receives it.
