/**
 * The remote list screen with string ids and a `status` field
 * (app/TodoList/TodoListAPI.tsx). Every handler awaits one request; the
 * server's answer is an input to the handler (a `Reply`), and the state
 * changes only once that answer is a success.
 */
module ApiTodoList {
  import opened JsText
  import opened Wrappers
  import opened StatusTodo
  import LocalTodoList

  /** The POST body `{ text: task.trim(), status: "todo" }`. */
  datatype NewTodo = NewTodo(text: string, status: Status)

  /** The create request `addTask` sends for input `task`: none when the input is blank. */
  function CreateRequest(task: string): (r: Option<NewTodo>)
    ensures r.None? <==> IsBlank(task)
    ensures r.Some? ==> r.value.text == Trim(task) && r.value.status == Todo
    ensures r.Some? ==> r.value.text != [] && Trim(r.value.text) == r.value.text
  {
    match SubmittedText(task)
    case None => None
    case Some(text) => Some(NewTodo(text, Todo))
  }

  /** The PUT to `${API_URL}/${id}` with body `{ status }`. */
  datatype StatusUpdate = StatusUpdate(id: string, status: Status)

  /** The request `toggleTaskStatus(id, currentStatus)` sends: the other status, for that id. */
  function ToggleRequest(id: string, currentStatus: Status): (r: StatusUpdate)
    ensures r.id == id && r.status != currentStatus
  {
    StatusUpdate(id, Flip(currentStatus))
  }

  /** Computing the requested status from the requested status gives back the original. */
  lemma ToggleRequestTwice(id: string, currentStatus: Status)
    ensures ToggleRequest(id, ToggleRequest(id, currentStatus).status).status == currentStatus
  {
  }

  /**
   * The successful toggle's map over the list: each item with id `id` is
   * replaced by the server's item, every other item stays in place.
   */
  function ReplaceMatching(todos: seq<TodoItem>, id: string, updated: TodoItem): (r: seq<TodoItem>)
    ensures |r| == |todos|
    ensures forall i | 0 <= i < |todos| :: r[i] == if todos[i].id == id then updated else todos[i]
  {
    if todos == [] then []
    else [if todos[0].id == id then updated else todos[0]] + ReplaceMatching(todos[1..], id, updated)
  }

  /** Replacing an id that no item carries changes nothing. */
  lemma ReplaceAbsent(todos: seq<TodoItem>, id: string, updated: TodoItem)
    requires forall i | 0 <= i < |todos| :: todos[i].id != id
    ensures ReplaceMatching(todos, id, updated) == todos
  {
    var r := ReplaceMatching(todos, id, updated);
    assert forall i | 0 <= i < |todos| :: r[i] == todos[i];
  }

  /** Applying the same successful reply twice is applying it once, whatever id the reply carries. */
  lemma ReplaceIdempotent(todos: seq<TodoItem>, id: string, updated: TodoItem)
    ensures ReplaceMatching(ReplaceMatching(todos, id, updated), id, updated) == ReplaceMatching(todos, id, updated)
  {
    var r := ReplaceMatching(todos, id, updated);
    var r2 := ReplaceMatching(r, id, updated);
    assert forall i | 0 <= i < |todos| :: r2[i] == r[i];
  }

  /**
   * When ids are unique and the server answers with the ticked item flipped,
   * replacing by id gives exactly what the local screen's in-place flip gives.
   */
  lemma EchoedReplaceIsLocalToggle(todos: seq<TodoItem>, k: nat)
    requires k < |todos|
    requires forall j | 0 <= j < |todos| && j != k :: todos[j].id != todos[k].id
    ensures ReplaceMatching(todos, todos[k].id, LocalTodoList.FlipItem(todos[k]))
         == LocalTodoList.ToggleMatching(todos, todos[k].id)
  {
    var r := ReplaceMatching(todos, todos[k].id, LocalTodoList.FlipItem(todos[k]));
    var l := LocalTodoList.ToggleMatching(todos, todos[k].id);
    forall i | 0 <= i < |todos| ensures r[i] == l[i] {
      if i != k {
        assert todos[i].id != todos[k].id;
      }
    }
  }

  /** The TODO section shows its placeholder exactly when no item has status "todo". */
  predicate ShowsEmptyTodo(todos: seq<TodoItem>): (r: bool)
    ensures r <==> forall i | 0 <= i < |todos| :: todos[i].status != Todo
  {
    assert forall i | 0 <= i < |todos| :: todos[i].status == Todo ==> todos[i] in TodoView(todos);
    assert |TodoView(todos)| != 0 ==> TodoView(todos)[0] in todos;
    |TodoView(todos)| == 0
  }

  /** The DONE section shows its placeholder exactly when no item has status "done". */
  predicate ShowsEmptyDone(todos: seq<TodoItem>): (r: bool)
    ensures r <==> forall i | 0 <= i < |todos| :: todos[i].status != Done
  {
    assert forall i | 0 <= i < |todos| :: todos[i].status == Done ==> todos[i] in DoneView(todos);
    assert |DoneView(todos)| != 0 ==> DoneView(todos)[0] in todos;
    |DoneView(todos)| == 0
  }

  /** The component's state: the input buffer `task` and the list `todos`. */
  class TodoList {
    var task: string
    var todos: seq<TodoItem>

    /** The initial state: an empty input and an empty list. */
    constructor ()
      ensures task == "" && todos == []
    {
      task := "";
      todos := [];
    }

    /** `fetchTodos`: a successful GET replaces the list; a failure leaves it. */
    method FetchTodos(reply: Reply<seq<TodoItem>>)
      modifies this
      ensures todos == (if reply.Ok? then reply.body else old(todos))
      ensures task == old(task)
    {
      if reply.Ok? {
        todos := reply.body;
      }
    }

    /** `handleInputChange`: the textarea's value becomes the input buffer. */
    method HandleInputChange(value: string)
      modifies this
      ensures task == value && todos == old(todos)
    {
      task := value;
    }

    /**
     * `addTask`: blank input sends nothing; otherwise `sent` is the POST body,
     * and when `reply` is a success the created item is appended and the input
     * cleared. A failure changes nothing.
     */
    method AddTask(reply: Reply<TodoItem>) returns (sent: Option<NewTodo>)
      modifies this
      ensures sent == CreateRequest(old(task))
      ensures sent.Some? && reply.Ok? ==> todos == old(todos) + [reply.body] && task == ""
      ensures sent.None? || reply.Failed? ==> todos == old(todos) && task == old(task)
    {
      sent := CreateRequest(task);
      if sent.Some? && reply.Ok? {
        todos := todos + [reply.body];
        task := "";
      }
    }

    /**
     * `toggleTaskStatus(id, currentStatus)`: always sends the flipped status;
     * on success the items with that id are replaced by the server's item,
     * on failure nothing changes (there is no optimistic update).
     */
    method ToggleTaskStatus(id: string, currentStatus: Status, reply: Reply<TodoItem>) returns (sent: StatusUpdate)
      modifies this
      ensures sent == ToggleRequest(id, currentStatus)
      ensures todos == (if reply.Ok? then ReplaceMatching(old(todos), id, reply.body) else old(todos))
      ensures task == old(task)
    {
      sent := ToggleRequest(id, currentStatus);
      if reply.Ok? {
        todos := ReplaceMatching(todos, id, reply.body);
      }
    }
  }
}
