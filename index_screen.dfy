/**
 * The `Index` screen component: two state cells, the list `todos` and the
 * input field's `text`, and the handlers that replace them.
 */
module IndexScreen {
  import opened Todos
  import opened TodoOps
  import opened JsText
  import opened SortById

  /**
   * What the load step obtains from storage under the key "TodoApp":
   * reading or parsing threw, nothing usable was stored (no value, or a
   * value that parses to null), or a parsed list.
   */
  datatype Stored = ReadFailed | Absent | Found(list: seq<Todo>)

  /**
   * `storageTodos && storageTodos.length` is falsy: the load step falls back
   * to the seed when it got no list or an empty one, and never when reading
   * or parsing threw (that path skips the test).
   */
  predicate UsesSeed(stored: Stored) {
    stored.Absent? || (stored.Found? && stored.list == [])
  }

  class TodoScreen {
    /** The to-do entries shown, newest first; a state cell that starts empty. */
    var todos: seq<Todo>
    /** The contents of the input field; a state cell that starts as the empty string. */
    var text: string

    /** Every state the screen reaches lists ids newest first (never increasing). */
    ghost predicate Valid()
      reads this
    {
      NonIncreasing(todos)
    }

    /** The screen mounts with an empty list and an empty input field. */
    constructor ()
      ensures Valid() && todos == [] && text == ""
    {
      todos := [];
      text := "";
    }

    /**
     * The first effect: a non-empty stored list is sorted and shown; with no
     * stored list (or an empty one) the shared seed array is sorted in place
     * and shown; when reading or parsing threw, nothing changes.
     */
    method Load(stored: Stored, seed: array<Todo>)
      requires Valid()
      modifies this, seed
      ensures Valid() && text == old(text)
      ensures stored.ReadFailed? ==> todos == old(todos) && seed[..] == old(seed[..])
      ensures stored.Found? && stored.list != [] ==>
        multiset(todos) == multiset(stored.list) && seed[..] == old(seed[..])
      ensures UsesSeed(stored) ==>
        todos == seed[..] && multiset(todos) == multiset(old(seed[..]))
      ensures stored.Found? && stored.list != [] && DistinctIds(stored.list) ==> StrictlyDescending(todos)
      ensures UsesSeed(stored) && DistinctIds(old(seed[..])) ==> StrictlyDescending(todos)
    {
      match stored
      case ReadFailed =>
      case Absent =>
        SortByIdDescending(seed);
        todos := seed[..];
        if DistinctIds(old(seed[..])) {
          SortedPermutationIsStrict(todos, old(seed[..]));
        }
      case Found(list) =>
        if |list| > 0 {
          var parsed := new Todo[|list|](i requires 0 <= i < |list| => list[i]);
          assert parsed[..] == list;
          SortByIdDescending(parsed);
          todos := parsed[..];
          if DistinctIds(list) {
            SortedPermutationIsStrict(todos, list);
          }
        } else {
          SortByIdDescending(seed);
          todos := seed[..];
          if DistinctIds(old(seed[..])) {
            SortedPermutationIsStrict(todos, old(seed[..]));
          }
        }
    }

    /** `onChangeText={setText}`: the input field's text is replaced, the list is not. */
    method SetText(t: string)
      requires Valid()
      modifies this
      ensures Valid() && todos == old(todos) && text == t
    {
      text := t;
    }

    /**
     * `addTodo`: blank input (only white space) changes nothing; otherwise
     * the untrimmed text becomes a new open entry in front, with an id above
     * every id present, and the input field is cleared.
     */
    method AddTodo()
      requires Valid()
      modifies this
      ensures Valid()
      ensures !HasContent(old(text)) ==> todos == old(todos) && text == old(text)
      ensures HasContent(old(text)) ==> todos == Added(old(todos), old(text)) && text == ""
      ensures HasContent(old(text)) ==>
        todos[0] == Todo(NextId(old(todos)), old(text), false) && todos[1..] == old(todos)
      ensures old(StrictlyDescending(todos)) ==> StrictlyDescending(todos)
    {
      if HasContent(text) {
        AddedKeepsNonIncreasing(todos, text);
        if StrictlyDescending(todos) {
          AddedKeepsStrictlyDescending(todos, text);
        }
        todos := Added(todos, text);
        text := "";
      }
    }

    /** `toggleTodo(id)`: flips `completed` on every entry with that id. */
    method ToggleTodo(id: int)
      requires Valid()
      modifies this
      ensures Valid() && text == old(text)
      ensures todos == Toggle(old(todos), id)
      ensures old(StrictlyDescending(todos)) ==> StrictlyDescending(todos)
    {
      ToggleKeepsOrder(todos, id);
      todos := Toggle(todos, id);
    }

    /** `removeTodos(id)`: drops every entry with that id, keeping the rest in order. */
    method RemoveTodos(id: int)
      requires Valid()
      modifies this
      ensures Valid() && text == old(text)
      ensures todos == Remove(old(todos), id)
      ensures old(StrictlyDescending(todos)) ==> StrictlyDescending(todos)
    {
      RemoveKeepsNonIncreasing(todos, id);
      if StrictlyDescending(todos) {
        RemoveKeepsStrictlyDescending(todos, id);
      }
      todos := Remove(todos, id);
    }
  }

  /**
   * A verified client scenario: seed `[{1, "Buy groceries"}]`, add "Walk dog", toggle 1,
   * remove 2.
   */
  method SeedAddToggleRemove()
  {
    var groceries := Todo(1, "Buy groceries", false);
    var seed := new Todo[1](_ => groceries);
    var screen := new TodoScreen();
    screen.Load(Absent, seed);
    assert screen.todos == [groceries] by {
      assert |screen.todos| == 1 && screen.todos[0] in multiset(seed[..]);
    }

    screen.SetText("Walk dog");
    assert !IsWhiteSpace("Walk dog"[0]);
    screen.AddTodo();
    var dog := Todo(2, "Walk dog", false);
    assert screen.todos == [dog, groceries];
    assert screen.text == "";

    screen.ToggleTodo(1);
    var done := groceries.(completed := true);
    assert screen.todos[0] == dog && screen.todos[1] == done;
    assert screen.todos == [dog, done];

    screen.RemoveTodos(2);
    assert [dog, done][1..] == [done];
    RemoveAbsent([done], 2);
    assert screen.todos == [done];
  }
}
