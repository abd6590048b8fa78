/** The todo store: its state `{ todos, todo, status }`, one method per case
    reducer, the list updates those reducers apply, and the facts about them. */
module TodoSlice {
  import opened TodoTypes
  import opened Lists

  /** `s[k]` and `r[k]` may differ; every other position holds the same item
      and the lengths agree. */
  ghost predicate ChangedOnlyAt(s: seq<Todo>, r: seq<Todo>, k: int)
  {
    |r| == |s| && forall j :: 0 <= j < |s| && j != k ==> r[j] == s[j]
  }

  /** The item `t` with its edit flag negated; `!undefined` is `true`. */
  function WithEditableToggled(t: Todo): (toggled: Todo)
  {
    t.(isEditable := Some(!Truthy(t.isEditable)))
  }

  /** The list after `toggleEditable(id)`: the first item whose id is `id`
      has its edit flag negated, and only that flag. */
  function ToggleEditableIn(s: seq<Todo>, id: ID): (r: seq<Todo>)
    requires HasKey(s, Some(id))
    ensures ChangedOnlyAt(s, r, IndexOf(s, Some(id)))
    ensures r[IndexOf(s, Some(id))].isEditable == Some(!Truthy(s[IndexOf(s, Some(id))].isEditable))
    ensures r[IndexOf(s, Some(id))].(isEditable := s[IndexOf(s, Some(id))].isEditable) == s[IndexOf(s, Some(id))]
  {
    s[IndexOf(s, Some(id)) := WithEditableToggled(s[IndexOf(s, Some(id))])]
  }

  /** The list after update-fulfilled with `payload`: the first item whose
      id is strictly equal to `payload.id` is replaced by `payload`. */
  function ReplaceFirst(s: seq<Todo>, payload: Todo): (r: seq<Todo>)
    requires HasKey(s, payload.id)
    ensures var k := IndexOf(s, payload.id);
            ChangedOnlyAt(s, r, k) && r[k] == payload &&
            forall j :: 0 <= j < k ==> s[j].id != payload.id
  {
    s[IndexOf(s, payload.id) := payload]
  }

  /** The list after delete-fulfilled with `payload`:
      `todos.filter(todo => todo.id !== payload)`. */
  function RemoveId(s: seq<Todo>, payload: ID): (r: seq<Todo>)
    ensures IsSubsequence(r, s)
    ensures forall t :: t in r ==> t.id != Some(payload)
    ensures forall t: Todo :: t.id != Some(payload) ==> multiset(r)[t] == multiset(s)[t]
  {
    var keep := (t: Todo) => t.id != Some(payload);
    FilterIsSubsequence(s, keep);
    FilterMultiset(s, keep);
    Filter(s, keep)
  }

  /** The payload of deleteTodoAsync: the requested id when the server's
      response body is truthy, otherwise -1. */
  function DeletePayload(requested: ID, bodyTruthy: bool): (payload: ID)
    ensures bodyTruthy ==> payload == requested
    ensures !bodyTruthy ==> payload == Num(-1)
  {
    if bodyTruthy then requested else Num(-1)
  }

  /** The store's state. Each method below is one case reducer: the three
      cases of each async operation and the synchronous `toggleEditable`. */
  class TodoStore {
    var todos: seq<Todo>
    /** The item fetched by get-one; `None` stands for `null`. */
    var todo: Option<Todo>
    var status: Status

    /** initialState: no items, no fetched item, idle. */
    constructor ()
      ensures todos == [] && todo == None && status == Idle
    {
      todos := [];
      todo := None;
      status := Idle;
    }

    /** toggleEditable(id): negate the edit flag of the first item with that
        id. The status flag is untouched. */
    method ToggleEditable(id: ID)
      requires HasKey(todos, Some(id))
      modifies this`todos
      ensures todos == ToggleEditableIn(old(todos), id)
      ensures todo == old(todo) && status == old(status)
    {
      var index := IndexOf(todos, Some(id));
      todos := todos[index := todos[index].(isEditable := Some(!Truthy(todos[index].isEditable)))];
    }

    /** The `pending` case, identical for all five async operations (add,
        list, get-one, delete, update). */
    method Pending()
      modifies this`status
      ensures status == Loading
      ensures todos == old(todos) && todo == old(todo)
    {
      status := Loading;
    }

    /** The `rejected` case, identical for all five async operations: the
        flag records the failure and nothing is rolled back. */
    method Rejected()
      modifies this`status
      ensures status == Failed
      ensures todos == old(todos) && todo == old(todo)
    {
      status := Failed;
    }

    /** addTodoAsync.fulfilled: append the item the server returned. */
    method AddFulfilled(payload: Todo)
      modifies this`status, this`todos
      ensures status == Idle
      ensures todos == old(todos) + [payload]
      ensures |todos| == |old(todos)| + 1 && todos[..|old(todos)|] == old(todos)
      ensures todo == old(todo)
    {
      status := Idle;
      todos := todos + [payload];
    }

    /** getTodoListAsync.fulfilled: replace the whole list. */
    method ListFulfilled(payload: seq<Todo>)
      modifies this`status, this`todos
      ensures status == Idle && todos == payload && todo == old(todo)
    {
      status := Idle;
      todos := payload;
    }

    /** getTodoAsync.fulfilled: record the fetched item; the list is left
        alone. */
    method GetOneFulfilled(payload: Todo)
      modifies this`status, this`todo
      ensures status == Idle && todo == Some(payload) && todos == old(todos)
    {
      status := Idle;
      todo := Some(payload);
    }

    /** deleteTodoAsync.fulfilled: drop every item whose id is the payload. */
    method DeleteFulfilled(payload: ID)
      modifies this`status, this`todos
      ensures status == Idle && todo == old(todo)
      ensures todos == RemoveId(old(todos), payload)
    {
      status := Idle;
      todos := Filter(todos, (t: Todo) => t.id != Some(payload));
    }

    /** updateTodoAsync.fulfilled: overwrite the first item whose id matches
        the payload's. */
    method UpdateFulfilled(payload: Todo)
      requires HasKey(todos, payload.id)
      modifies this`status, this`todos
      ensures status == Idle && todo == old(todo)
      ensures todos == ReplaceFirst(old(todos), payload)
    {
      status := Idle;
      var index := IndexOf(todos, payload.id);
      todos := todos[index := payload];
    }
  }

  /** Toggling the edit flag twice restores the list when the flag was
      defined; an undefined flag comes back as `false`, which is just as
      falsy. */
  lemma ToggleEditableTwice(s: seq<Todo>, id: ID)
    requires HasKey(s, Some(id))
    ensures HasKey(ToggleEditableIn(s, id), Some(id))
    ensures var k := IndexOf(s, Some(id));
            var twice := ToggleEditableIn(ToggleEditableIn(s, id), id);
            (s[k].isEditable.Some? ==> twice == s) &&
            (s[k].isEditable.None? ==> twice == s[k := s[k].(isEditable := Some(false))])
  {
    var k := IndexOf(s, Some(id));
    var once := ToggleEditableIn(s, id);
    ToggleEditableKeepsIds(s, id);
    SameIdsSameIndex(s, once, Some(id));
    var twice := ToggleEditableIn(once, id);
    assert twice == once[k := WithEditableToggled(once[k])];
    assert once == s[k := WithEditableToggled(s[k])];
    assert twice == s[k := WithEditableToggled(WithEditableToggled(s[k]))];
    EditableToggledTwice(s[k]);
  }

  /** Negating one item's edit flag twice gives back the item when the flag
      was defined, and the item with the flag `false` when it was not. */
  lemma EditableToggledTwice(t: Todo)
    ensures t.isEditable.Some? ==> WithEditableToggled(WithEditableToggled(t)) == t
    ensures t.isEditable.None? ==> WithEditableToggled(WithEditableToggled(t)) == t.(isEditable := Some(false))
  {
    var once := WithEditableToggled(t);
    assert Truthy(once.isEditable) == !Truthy(t.isEditable);
    if t.isEditable.Some? {
      assert Truthy(t.isEditable) == t.isEditable.value;
    }
  }

  /** findIndex looks only at the ids: two lists with the same ids position
      by position give the same index for every key. */
  lemma SameIdsSameIndex(s: seq<Todo>, r: seq<Todo>, key: Option<ID>)
    requires Ids(s) == Ids(r)
    ensures IndexOf(s, key) == IndexOf(r, key)
  {
  }

  /** `toggleEditable` keeps every id in place, so it keeps the ids unique. */
  lemma ToggleEditableKeepsIds(s: seq<Todo>, id: ID)
    requires HasKey(s, Some(id))
    ensures Ids(ToggleEditableIn(s, id)) == Ids(s)
    ensures UniqueIds(s) ==> UniqueIds(ToggleEditableIn(s, id))
  {
  }

  /** Update-fulfilled keeps every id in place, so it keeps the ids unique. */
  lemma UpdateKeepsIds(s: seq<Todo>, payload: Todo)
    requires HasKey(s, payload.id)
    ensures Ids(ReplaceFirst(s, payload)) == Ids(s)
    ensures UniqueIds(s) ==> UniqueIds(ReplaceFirst(s, payload))
  {
  }

  /** Add-fulfilled appends the item the server created. The server assigns
      a fresh id, one no item in the list already has; under that guarantee
      appending keeps the ids unique. (List-fulfilled replaces the list
      wholesale, so afterwards the ids are unique exactly when the server's
      list has unique ids.) */
  lemma AddKeepsIdsUnique(s: seq<Todo>, payload: Todo)
    requires UniqueIds(s) && (payload.id.Some? ==> !HasKey(s, payload.id))
    ensures UniqueIds(s + [payload])
  {
  }

  /** Delete-fulfilled only drops items, so it keeps the ids unique. */
  lemma DeleteKeepsIdsUnique(s: seq<Todo>, id: ID)
    requires UniqueIds(s)
    ensures UniqueIds(RemoveId(s, id))
  {
    SubsequenceKeepsIdsUnique(RemoveId(s, id), s);
  }

  /** Dropping items never introduces a duplicate id. */
  lemma {:induction false} SubsequenceKeepsIdsUnique(r: seq<Todo>, s: seq<Todo>)
    requires IsSubsequence(r, s) && UniqueIds(s)
    ensures UniqueIds(r)
    decreases |s|
  {
    if r != [] {
      assert UniqueIds(s[1..]) by {
        forall i, j | 0 <= i < j < |s[1..]| && s[1..][i].id.Some?
          ensures s[1..][i].id != s[1..][j].id
        {
          assert s[1..][i] == s[i + 1] && s[1..][j] == s[j + 1];
        }
      }
      if r[0] == s[0] && IsSubsequence(r[1..], s[1..]) {
        SubsequenceKeepsIdsUnique(r[1..], s[1..]);
        SubsequenceElements(r[1..], s[1..]);
        forall i, j | 0 <= i < j < |r| && r[i].id.Some?
          ensures r[i].id != r[j].id
        {
          if i == 0 {
            assert r[j] in r[1..] by { assert r[j] == r[1..][j - 1]; }
            var m :| 0 <= m < |s[1..]| && s[1..][m] == r[j];
            assert s[m + 1] == r[j];
          } else {
            assert r[i] == r[1..][i - 1] && r[j] == r[1..][j - 1];
          }
        }
      } else {
        SubsequenceKeepsIdsUnique(r, s[1..]);
      }
    }
  }

  /** Everything in a subsequence of `s` is in `s`. */
  lemma {:induction false} SubsequenceElements<T>(r: seq<T>, s: seq<T>)
    requires IsSubsequence(r, s)
    ensures forall x :: x in r ==> x in s
    decreases |s|
  {
    if r != [] {
      assert r == [r[0]] + r[1..] && s == [s[0]] + s[1..];
      if r[0] == s[0] && IsSubsequence(r[1..], s[1..]) {
        SubsequenceElements(r[1..], s[1..]);
      } else {
        SubsequenceElements(r, s[1..]);
      }
    }
  }

  /** With unique ids, deleting an id that is present removes exactly one
      item. */
  lemma {:induction false} RemoveUniqueId(s: seq<Todo>, id: ID)
    requires UniqueIds(s) && HasKey(s, Some(id))
    ensures |RemoveId(s, id)| == |s| - 1
  {
    var keep := (t: Todo) => t.id != Some(id);
    assert s == [s[0]] + s[1..];
    if s[0].id == Some(id) {
      assert Filter(s, keep) == Filter(s[1..], keep);
      FilterKeepsAll(s[1..], keep);
    } else {
      assert Filter(s, keep) == [s[0]] + Filter(s[1..], keep);
      var i :| 0 <= i < |s| && s[i].id == Some(id);
      assert s[1..][i - 1].id == Some(id);
      RemoveUniqueId(s[1..], id);
    }
  }

  /** When the server's delete response body is falsy, the payload is -1:
      only items whose id is the number -1 are dropped, so in a list without
      such an item nothing changes. */
  lemma FalsyDeleteBody(s: seq<Todo>, requested: ID)
    ensures var r := RemoveId(s, DeletePayload(requested, false));
            forall t: Todo :: t.id != Some(Num(-1)) ==> multiset(r)[t] == multiset(s)[t]
    ensures (forall i :: 0 <= i < |s| ==> s[i].id != Some(Num(-1))) ==>
            RemoveId(s, DeletePayload(requested, false)) == s
  {
    if forall i :: 0 <= i < |s| ==> s[i].id != Some(Num(-1)) {
      FilterKeepsAll(s, (t: Todo) => t.id != Some(Num(-1)));
    }
  }
}
