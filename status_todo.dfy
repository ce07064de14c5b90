/**
 * The item shape `{ id: string, text: string, status: "todo" | "done" }`
 * shared by the local list (containers/TodoList) and the string-id remote
 * list (app/TodoList/TodoListAPI), and its two render filters.
 */
module StatusTodo {
  import opened Views

  /** The string union `"todo" | "done"`. */
  datatype Status = Todo | Done

  /** The status flip every screen uses: "todo" becomes "done" and "done" becomes "todo". */
  function Flip(s: Status): (r: Status)
    ensures r != s
  {
    if s == Todo then Done else Todo
  }

  datatype TodoItem = TodoItem(id: string, text: string, status: Status)

  predicate IsTodo(t: TodoItem) { t.status == Todo }

  predicate IsDone(t: TodoItem) { t.status == Done }

  /** The TODO section: the items whose status is "todo", in list order. */
  function TodoView(todos: seq<TodoItem>): (r: seq<TodoItem>)
    ensures forall x :: x in r <==> x in todos && x.status == Todo
  {
    Filter(todos, IsTodo)
  }

  /** The DONE section: the items whose status is "done", in list order. */
  function DoneView(todos: seq<TodoItem>): (r: seq<TodoItem>)
    ensures forall x :: x in r <==> x in todos && x.status == Done
  {
    Filter(todos, IsDone)
  }

  /**
   * The two sections partition the list: the list is an order-preserving
   * interleaving of the TODO and DONE sections, so every item is shown in
   * exactly one of them and each keeps the list's order.
   */
  lemma ViewsPartition(todos: seq<TodoItem>)
    ensures Interleaves(todos, TodoView(todos), DoneView(todos))
    ensures |TodoView(todos)| + |DoneView(todos)| == |todos|
    ensures multiset(TodoView(todos)) + multiset(DoneView(todos)) == multiset(todos)
  {
    ComplementaryFiltersInterleave(todos, IsTodo, IsDone);
    InterleavesCounts(todos, TodoView(todos), DoneView(todos));
  }

  /** Appending an item shows it last in its own section and leaves the other section as it was. */
  lemma ViewsOfAppended(todos: seq<TodoItem>, x: TodoItem)
    ensures TodoView(todos + [x]) == TodoView(todos) + (if x.status == Todo then [x] else [])
    ensures DoneView(todos + [x]) == DoneView(todos) + (if x.status == Done then [x] else [])
  {
    FilterConcat(todos, [x], IsTodo);
    FilterConcat(todos, [x], IsDone);
    assert [x][1..] == [];
  }
}
