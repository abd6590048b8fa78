/** The to-do item, its identity and the store's status flag, together with
    the id lookup (`findIndex(el => el.id === key)`) that the reducers and the
    view share. */
module TodoTypes {

  datatype Option<T> = None | Some(value: T)

  /** An item's identity: a JavaScript number or a string. Strict equality
      (`===`) never equates a number with a string, and no two constructors
      of this datatype are equal either. */
  datatype ID = Num(n: int) | Str(s: string)

  /** A to-do item. `id` is absent (`undefined`) until the server assigns one;
      `isEditable` is a UI-only flag that may be absent as well. */
  datatype Todo = Todo(id: Option<ID>, title: string, completed: bool, isEditable: Option<bool>)

  /** The store's status flag: the phase of the most recent async operation. */
  datatype Status = Idle | Loading | Failed

  /** JavaScript truthiness of an optional flag: `undefined` and `false` are
      falsy. */
  predicate Truthy(flag: Option<bool>)
  {
    flag == Some(true)
  }

  /** Some element of `s` has an `id` strictly equal to `key`. A `key` of
      `None` stands for `undefined`, which is strictly equal to an absent id. */
  predicate HasKey(s: seq<Todo>, key: Option<ID>)
  {
    exists i :: 0 <= i < |s| && s[i].id == key
  }

  /** `s.findIndex(el => el.id === key)`: the least index whose element has
      id `key`, or -1 when there is none. */
  function IndexOf(s: seq<Todo>, key: Option<ID>): (i: int)
    ensures -1 <= i < |s|
    ensures i == -1 <==> !HasKey(s, key)
    ensures 0 <= i ==> s[i].id == key && forall j :: 0 <= j < i ==> s[j].id != key
  {
    if s == [] then -1
    else if s[0].id == key then 0
    else
      var k := IndexOf(s[1..], key);
      if k == -1 then -1 else k + 1
  }

  /** The ids of `s`, position by position. */
  function Ids(s: seq<Todo>): (ids: seq<Option<ID>>)
    ensures |ids| == |s|
    ensures forall i :: 0 <= i < |s| ==> ids[i] == s[i].id
  {
    seq(|s|, i requires 0 <= i < |s| => s[i].id)
  }

  /** No two persisted items (items that carry an id) share that id. */
  ghost predicate UniqueIds(s: seq<Todo>)
  {
    forall i, j :: 0 <= i < j < |s| && s[i].id.Some? ==> s[i].id != s[j].id
  }
}
