/** The list logic of the Todo view: the filter, the completed count, the
    records sent on toggle-complete and edit-save, and the input guards of
    the add box and the edit box. Rendering is not modelled. */
module TodoView {
  import opened TodoTypes
  import opened Lists
  import TodoSlice

  /** `findIndex(list, id)`: the least index whose item has id `id`, or -1. */
  function FindIndex(list: seq<Todo>, id: ID): (i: int)
    ensures -1 <= i < |list|
    ensures i == -1 <==> forall j :: 0 <= j < |list| ==> list[j].id != Some(id)
    ensures 0 <= i ==> list[i].id == Some(id) && forall j :: 0 <= j < i ==> list[j].id != Some(id)
  {
    IndexOf(list, Some(id))
  }

  /** `filter(completed, text)`: whether an item is shown under the filter
      named `text`. Any text other than "Done" and "Undone" shows everything. */
  predicate Keep(completed: bool, text: string): (shown: bool)
    ensures shown <==> (text == "Done" ==> completed) && (text == "Undone" ==> !completed)
  {
    if text == "Done" then completed
    else if text == "Undone" then !completed
    else true
  }

  /** `todos.filter(callback)` under the selected filter: the items the view
      renders, in list order, each as often as it occurs in `todos`. */
  function Displayed(todos: seq<Todo>, selected: string): (r: seq<Todo>)
    ensures IsSubsequence(r, todos)
    ensures forall t :: t in r ==> Keep(t.completed, selected)
    ensures forall t: Todo :: multiset(r)[t] == if Keep(t.completed, selected) then multiset(todos)[t] else 0
  {
    var callback := (t: Todo) => Keep(t.completed, selected);
    FilterIsSubsequence(todos, callback);
    FilterMultiset(todos, callback);
    Filter(todos, callback)
  }

  /** "All", and every other text but "Done" and "Undone", shows the whole
      list. */
  lemma DisplayedAll(todos: seq<Todo>, selected: string)
    requires selected != "Done" && selected != "Undone"
    ensures Displayed(todos, selected) == todos
  {
    FilterKeepsAll(todos, (t: Todo) => Keep(t.completed, selected));
  }

  /** "Done" shows exactly the completed items and "Undone" exactly the
      others: no item is in both, and together they account for the whole
      list. */
  lemma DoneUndonePartition(todos: seq<Todo>)
    ensures forall t :: t in Displayed(todos, "Done") ==> t.completed
    ensures forall t :: t in Displayed(todos, "Undone") ==> !t.completed
    ensures forall t :: !(t in Displayed(todos, "Done") && t in Displayed(todos, "Undone"))
    ensures |Displayed(todos, "Done")| + |Displayed(todos, "Undone")| == |todos|
  {
    FilterPartition(todos, (t: Todo) => Keep(t.completed, "Done"), (t: Todo) => Keep(t.completed, "Undone"));
  }

  /** The whole fold `todos.reduce((ac, o) => o.completed ? ac + 1 : ac, ac)`,
      started from the accumulator `ac`. */
  function CountFrom(todos: seq<Todo>, ac: nat): (n: nat)
    ensures ac <= n <= ac + |todos|
  {
    if todos == [] then ac
    else CountFrom(todos[1..], if todos[0].completed then ac + 1 else ac)
  }

  /** The fold adds to its accumulator the number of completed items. */
  lemma {:induction false} CountFromIsDoneLength(todos: seq<Todo>, ac: nat)
    ensures CountFrom(todos, ac) == ac + |Displayed(todos, "Done")|
  {
    if todos != [] {
      CountFromIsDoneLength(todos[1..], if todos[0].completed then ac + 1 else ac);
    }
  }

  /** The completed count shown by the progress bar: the reduce started at 0. */
  function CompletedCount(todos: seq<Todo>): (n: nat)
    ensures n == |Displayed(todos, "Done")|
    ensures n <= |todos|
  {
    CountFromIsDoneLength(todos, 0);
    CountFrom(todos, 0)
  }

  /** The item `t` with `completed` negated and every other field kept. */
  function WithCompletedFlipped(t: Todo): (flipped: Todo)
  {
    t.(completed := !t.completed)
  }

  /** toggleComplete(id): the record sent to updateTodoAsync, a copy of the
      first item with id `id` that differs from it only in `completed`. */
  function ToggleComplete(todos: seq<Todo>, id: ID): (updated: Todo)
    requires HasKey(todos, Some(id))
    ensures var item := todos[FindIndex(todos, id)];
            updated.id == Some(id) && updated.completed == !item.completed &&
            updated.(completed := item.completed) == item
  {
    WithCompletedFlipped(todos[FindIndex(todos, id)])
  }

  /** Toggling completion twice, each time through the store's update,
      gives back the original list, assuming the server's update response
      echoes the record it was sent (the payload of update-fulfilled is then
      the record built here). */
  lemma ToggleCompleteTwice(todos: seq<Todo>, id: ID)
    requires HasKey(todos, Some(id))
    ensures var once := TodoSlice.ReplaceFirst(todos, ToggleComplete(todos, id));
            HasKey(once, Some(id)) &&
            TodoSlice.ReplaceFirst(once, ToggleComplete(once, id)) == todos
  {
  }

  /** saveEditedTodo(todo): the record sent to updateTodoAsync, the edited
      item with the edit flag cleared and nothing else changed. */
  function SaveEditedTodo(todo: Todo): (updated: Todo)
    ensures updated.isEditable == Some(false) && !Truthy(updated.isEditable)
    ensures updated.(isEditable := todo.isEditable) == todo
  {
    todo.(isEditable := Some(false))
  }

  /** Once the store applies an edit-save for an item it holds, that item
      carries the new title and leaves edit mode; no other item changes.
      This assumes the server's update response echoes the record it was
      sent. */
  lemma SaveEditedLeavesEditMode(todos: seq<Todo>, edited: Todo)
    requires HasKey(todos, edited.id)
    ensures var k := IndexOf(todos, edited.id);
            var r := TodoSlice.ReplaceFirst(todos, SaveEditedTodo(edited));
            r[k].title == edited.title && !Truthy(r[k].isEditable) &&
            forall j :: 0 <= j < |todos| && j != k ==> r[j] == todos[j]
  {
  }

  /** The item dispatched by the add box: the typed title, not completed,
      not in edit mode, without an id. */
  function NewItem(title: string): (item: Todo)
    ensures item.id.None? && item.title == title && !item.completed
    ensures item.isEditable.Some? && !Truthy(item.isEditable)
  {
    Todo(None, title, false, Some(false))
  }

  /** The Todo component's local state: the selected filter and the add
      box's text. */
  class TodoComponent {
    var selectedFilter: string
    var addInput: string

    constructor ()
      ensures selectedFilter == "All" && addInput == ""
    {
      selectedFilter := "All";
      addInput := "";
    }

    /** onChangeFilter(title) */
    method OnChangeFilter(title: string)
      modifies this`selectedFilter
      ensures selectedFilter == title && addInput == old(addInput)
    {
      selectedFilter := title;
    }

    /** onAddInputChange: the add box follows what is typed. */
    method OnAddInputChange(value: string)
      modifies this`addInput
      ensures addInput == value && selectedFilter == old(selectedFilter)
    {
      addInput := value;
    }

    /** onSave: on Enter with a non-empty input, dispatch a new item carrying
        the input as its title and clear the input; otherwise do nothing.
        `dispatched` is the argument passed to addTodoAsync, if any. */
    method OnSave(key: string) returns (dispatched: Option<Todo>)
      modifies this`addInput
      ensures key == "Enter" && old(addInput) != "" ==>
                dispatched == Some(NewItem(old(addInput))) && addInput == ""
      ensures !(key == "Enter" && old(addInput) != "") ==>
                dispatched == None && addInput == old(addInput)
      ensures dispatched.Some? ==> dispatched.value.title != "" && !dispatched.value.completed
      ensures selectedFilter == old(selectedFilter)
    {
      if key == "Enter" && addInput != "" {
        dispatched := Some(NewItem(addInput));
        addInput := "";
      } else {
        dispatched := None;
      }
    }
  }

  /** The edit box shown for an item in edit mode; it holds its own copy of
      the item being edited. */
  class EditTodo {
    var todo: Todo

    constructor (initialValue: Todo)
      ensures todo == initialValue
    {
      todo := initialValue;
    }

    /** onChange: the copy takes the typed title. */
    method OnChange(title: string)
      modifies this`todo
      ensures todo == old(todo).(title := title)
    {
      todo := todo.(title := title);
    }

    /** handleSave (the Save button): hand the copy to `onSave` exactly when
        its title is non-empty. `saved` is that argument, if any. */
    method HandleSave() returns (saved: Option<Todo>)
      ensures saved.Some? <==> todo.title != ""
      ensures saved.Some? ==> saved.value == todo
    {
      if todo.title != "" {
        saved := Some(todo);
      } else {
        saved := None;
      }
    }

    /** handleKeyDown: the same, on the Enter key only. */
    method HandleKeyDown(key: string) returns (saved: Option<Todo>)
      ensures saved.Some? <==> key == "Enter" && todo.title != ""
      ensures saved.Some? ==> saved.value == todo
    {
      if key == "Enter" && todo.title != "" {
        saved := Some(todo);
      } else {
        saved := None;
      }
    }
  }
}
