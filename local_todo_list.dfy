/**
 * The local todo list screen (containers/TodoList/TodoList.tsx): a list kept
 * only in component state, with no backend. New items get an id from a uuid
 * generator, which is an opaque input here: it may repeat ids, and on the
 * server side of a render it returns "".
 */
module LocalTodoList {
  import opened JsText
  import opened Wrappers
  import opened StatusTodo

  /**
   * The list after `addTask` with input `task`, where `newId` is what
   * `generateUuid()` returned: unchanged for blank input, otherwise one new
   * TODO item with the trimmed text at the end.
   */
  function AfterAdd(todos: seq<TodoItem>, task: string, newId: string): (r: seq<TodoItem>)
    ensures IsBlank(task) ==> r == todos
    ensures !IsBlank(task) ==>
      && |r| == |todos| + 1
      && r[..|todos|] == todos
      && r[|todos|] == TodoItem(newId, Trim(task), Todo)
  {
    match SubmittedText(task)
    case None => todos
    case Some(text) => todos + [TodoItem(newId, text, Todo)]
  }

  /** The item `toggleTaskStatus` maps a matching item to: a copy with the other status. */
  function FlipItem(t: TodoItem): (r: TodoItem)
    ensures r.id == t.id && r.text == t.text && r.status != t.status
  {
    t.(status := Flip(t.status))
  }

  /**
   * The map `toggleTaskStatus` applies to the list: every item whose id is
   * `id` flips its status, every other item stays, in place.
   */
  function ToggleMatching(todos: seq<TodoItem>, id: string): (r: seq<TodoItem>)
    ensures |r| == |todos|
    ensures forall i | 0 <= i < |todos| ::
      r[i] == if todos[i].id == id then FlipItem(todos[i]) else todos[i]
  {
    if todos == [] then []
    else [if todos[0].id == id then FlipItem(todos[0]) else todos[0]] + ToggleMatching(todos[1..], id)
  }

  function Ids(todos: seq<TodoItem>): (r: seq<string>)
    ensures |r| == |todos| && forall i | 0 <= i < |todos| :: r[i] == todos[i].id
  {
    seq(|todos|, i requires 0 <= i < |todos| => todos[i].id)
  }

  function Texts(todos: seq<TodoItem>): (r: seq<string>)
    ensures |r| == |todos| && forall i | 0 <= i < |todos| :: r[i] == todos[i].text
  {
    seq(|todos|, i requires 0 <= i < |todos| => todos[i].text)
  }

  /** Toggling keeps the length of the list and the sequence of ids and of texts. */
  lemma ToggleKeepsIdsAndTexts(todos: seq<TodoItem>, id: string)
    ensures |ToggleMatching(todos, id)| == |todos|
    ensures Ids(ToggleMatching(todos, id)) == Ids(todos)
    ensures Texts(ToggleMatching(todos, id)) == Texts(todos)
  {
    var r := ToggleMatching(todos, id);
    assert forall i | 0 <= i < |todos| :: Ids(r)[i] == Ids(todos)[i];
    assert forall i | 0 <= i < |todos| :: Texts(r)[i] == Texts(todos)[i];
  }

  /** Toggling the same id twice gives back the list. */
  lemma ToggleTwice(todos: seq<TodoItem>, id: string)
    ensures ToggleMatching(ToggleMatching(todos, id), id) == todos
  {
    var r := ToggleMatching(ToggleMatching(todos, id), id);
    assert forall i | 0 <= i < |todos| :: r[i] == todos[i];
  }

  /** Toggling an id that no item carries changes nothing. */
  lemma ToggleAbsent(todos: seq<TodoItem>, id: string)
    requires forall i | 0 <= i < |todos| :: todos[i].id != id
    ensures ToggleMatching(todos, id) == todos
  {
    var r := ToggleMatching(todos, id);
    assert forall i | 0 <= i < |todos| :: r[i] == todos[i];
  }

  /**
   * Ticking an item whose id no other item shares moves it to the other
   * section: its flipped copy is shown there and it no longer is shown where it was.
   */
  lemma ToggleMovesItem(todos: seq<TodoItem>, k: nat)
    requires k < |todos|
    requires forall j | 0 <= j < |todos| && j != k :: todos[j].id != todos[k].id
    ensures var r := ToggleMatching(todos, todos[k].id);
      && r[k] == FlipItem(todos[k])
      && (todos[k].status == Todo ==> r[k] in DoneView(r) && todos[k] !in TodoView(r))
      && (todos[k].status == Done ==> r[k] in TodoView(r) && todos[k] !in DoneView(r))
  {
    var r := ToggleMatching(todos, todos[k].id);
    assert r[k] in r;
    forall j | 0 <= j < |r| ensures r[j] != todos[k] {
      if j != k {
        assert r[j].id != todos[k].id;
      } else {
        assert r[j].status != todos[k].status;
      }
    }
  }

  /**
   * Start empty, type "  Buy milk " and add it: it shows in the TODO section
   * as "Buy milk"; tick it: it moves to the DONE section.
   */
  lemma BuyMilkScenario(id: string)
    ensures AfterAdd([], "  Buy milk ", id) == [TodoItem(id, "Buy milk", Todo)]
    ensures TodoView(AfterAdd([], "  Buy milk ", id)) == [TodoItem(id, "Buy milk", Todo)]
    ensures DoneView(AfterAdd([], "  Buy milk ", id)) == []
    ensures TodoView(ToggleMatching(AfterAdd([], "  Buy milk ", id), id)) == []
    ensures DoneView(ToggleMatching(AfterAdd([], "  Buy milk ", id), id)) == [TodoItem(id, "Buy milk", Done)]
  {
    var milk := TodoItem(id, "Buy milk", Todo);
    assert Trim("  Buy milk ") == "Buy milk" by {
      assert "  Buy milk " == "  " + "Buy milk" + " ";
      TrimOfPadded("  ", "Buy milk", " ");
    }
    var s1 := AfterAdd([], "  Buy milk ", id);
    assert s1 == [] + [milk];
    ViewsOfAppended([], milk);
    var s2 := ToggleMatching(s1, id);
    assert s2 == [] + [FlipItem(milk)];
    ViewsOfAppended([], FlipItem(milk));
  }

  /** The component's state: the input buffer `task` and the list `todos`. */
  class TodoList {
    var task: string
    var todos: seq<TodoItem>

    /** Every item was made by `addTask`, so its text is non-empty and already trimmed. */
    ghost predicate Valid()
      reads this
    {
      forall i | 0 <= i < |todos| :: todos[i].text != [] && Trim(todos[i].text) == todos[i].text
    }

    /** The initial state: an empty input and an empty list. */
    constructor ()
      ensures Valid() && task == "" && todos == []
    {
      task := "";
      todos := [];
    }

    /** `handleInputChange`: the textarea's value becomes the input buffer. */
    method HandleInputChange(value: string)
      requires Valid()
      modifies this
      ensures Valid() && task == value && todos == old(todos)
    {
      task := value;
    }

    /**
     * `addTask`, with `newId` the value `generateUuid()` returns: blank input
     * changes nothing; otherwise the new TODO item is appended and the input cleared.
     */
    method AddTask(newId: string)
      requires Valid()
      modifies this
      ensures Valid()
      ensures todos == AfterAdd(old(todos), old(task), newId)
      ensures task == if IsBlank(old(task)) then old(task) else ""
    {
      var text := SubmittedText(task);
      if text.Some? {
        todos := todos + [TodoItem(newId, text.value, Todo)];
        task := "";
      }
    }

    /** `toggleTaskStatus(id)`: every item with that id flips; the input is untouched. */
    method ToggleTaskStatus(id: string)
      requires Valid()
      modifies this
      ensures Valid()
      ensures todos == ToggleMatching(old(todos), id) && task == old(task)
    {
      todos := ToggleMatching(todos, id);
    }
  }
}
