/**
 * The remote list screen with numeric ids and an `isCompleted` flag
 * (app/TodoList/TodoList.tsx). Handlers await one request; the server's
 * answer is an input (a `Reply`), and state changes only after a success.
 */
module NumericTodoList {
  import opened JsText
  import opened Wrappers
  import opened Views

  /** `{ id: number, name: string, isCompleted: boolean }`. */
  datatype Task = Task(id: int, name: string, isCompleted: bool)

  /** The POST body `{ name: task.trim() }`. */
  datatype NewTask = NewTask(name: string)

  /** The create request `addTask` sends for input `task`: none when the input is blank. */
  function CreateRequest(task: string): (r: Option<NewTask>)
    ensures r.None? <==> IsBlank(task)
    ensures r.Some? ==> r.value.name == Trim(task)
    ensures r.Some? ==> r.value.name != [] && Trim(r.value.name) == r.value.name
  {
    match SubmittedText(task)
    case None => None
    case Some(name) => Some(NewTask(name))
  }

  /** `Array.prototype.find` by id: the first item with that id, if any. */
  function Find(todos: seq<Task>, id: int): (r: Option<Task>)
    ensures r.None? <==> forall i | 0 <= i < |todos| :: todos[i].id != id
    ensures r.Some? ==> exists k | 0 <= k < |todos| ::
      && todos[k] == r.value && r.value.id == id
      && forall j | 0 <= j < k :: todos[j].id != id
  {
    if todos == [] then None
    else if todos[0].id == id then Some(todos[0])
    else
      var r := Find(todos[1..], id);
      if r.Some? then
        ghost var k :| 0 <= k < |todos[1..]| && todos[1..][k] == r.value && r.value.id == id
                       && forall j | 0 <= j < k :: todos[1..][j].id != id;
        assert todos[k + 1] == r.value && forall j | 0 <= j < k + 1 :: todos[j].id != id;
        r
      else
        r
  }

  /** When ids are unique, `find` returns the one item that carries the id. */
  lemma FindUnique(todos: seq<Task>, k: nat)
    requires k < |todos|
    requires forall j | 0 <= j < |todos| && j != k :: todos[j].id != todos[k].id
    ensures Find(todos, todos[k].id) == Some(todos[k])
  {
    var r := Find(todos, todos[k].id);
    assert r.Some?;
  }

  /**
   * The PUT body of `toggleTaskStatus(id)`: a copy of the first item with
   * that id whose `isCompleted` is negated, and no request at all when no
   * item has the id.
   */
  function ToggleRequest(todos: seq<Task>, id: int): (r: Option<Task>)
    ensures r.None? <==> forall i | 0 <= i < |todos| :: todos[i].id != id
    ensures r.Some? ==> var found := Find(todos, id).value;
      r.value.id == id && r.value.name == found.name && r.value.isCompleted == !found.isCompleted
  {
    match Find(todos, id)
    case None => None
    case Some(found) => Some(found.(isCompleted := !found.isCompleted))
  }

  /**
   * The successful toggle's map over the list: items with id `id` take the server's `isCompleted` and keep their id and
   * name; every other item stays; length and order are kept.
   */
  function MergeCompleted(todos: seq<Task>, id: int, completed: bool): (r: seq<Task>)
    ensures |r| == |todos|
    ensures forall i | 0 <= i < |todos| ::
      && r[i].id == todos[i].id && r[i].name == todos[i].name
      && r[i].isCompleted == (if todos[i].id == id then completed else todos[i].isCompleted)
  {
    if todos == [] then []
    else
      [if todos[0].id == id then todos[0].(isCompleted := completed) else todos[0]]
      + MergeCompleted(todos[1..], id, completed)
  }

  /** Merging into an id that no item carries changes nothing. */
  lemma MergeAbsent(todos: seq<Task>, id: int, completed: bool)
    requires forall i | 0 <= i < |todos| :: todos[i].id != id
    ensures MergeCompleted(todos, id, completed) == todos
  {
    var r := MergeCompleted(todos, id, completed);
    assert forall i | 0 <= i < |todos| :: r[i] == todos[i];
  }

  /**
   * The list after `toggleTaskStatus(id)` when the server answers a PUT with
   * the body it was sent (and nothing happens when no request is sent).
   */
  function AfterEchoedToggle(todos: seq<Task>, id: int): (r: seq<Task>)
    ensures |r| == |todos|
  {
    match ToggleRequest(todos, id)
    case None => todos
    case Some(body) => MergeCompleted(todos, id, body.isCompleted)
  }

  /**
   * When ids are unique and the server echoes the PUT body, the list after a
   * toggle is the list with just the ticked item's flag negated.
   */
  lemma EchoedToggleFlipsOne(todos: seq<Task>, k: nat)
    requires k < |todos|
    requires forall j | 0 <= j < |todos| && j != k :: todos[j].id != todos[k].id
    ensures AfterEchoedToggle(todos, todos[k].id) == todos[k := todos[k].(isCompleted := !todos[k].isCompleted)]
  {
    FindUnique(todos, k);
    var r := MergeCompleted(todos, todos[k].id, !todos[k].isCompleted);
    forall i | 0 <= i < |todos| ensures r[i] == todos[k := todos[k].(isCompleted := !todos[k].isCompleted)][i] {
      if i != k {
        assert todos[i].id != todos[k].id;
      }
    }
  }

  /** With unique ids and an echoing server, toggling the same item twice gives back the list. */
  lemma EchoedToggleTwice(todos: seq<Task>, k: nat)
    requires k < |todos|
    requires forall j | 0 <= j < |todos| && j != k :: todos[j].id != todos[k].id
    ensures AfterEchoedToggle(AfterEchoedToggle(todos, todos[k].id), todos[k].id) == todos
  {
    var flipped := todos[k].(isCompleted := !todos[k].isCompleted);
    var once := todos[k := flipped];
    EchoedToggleFlipsOne(todos, k);
    assert forall j | 0 <= j < |once| && j != k :: once[j].id != once[k].id by {
      forall j | 0 <= j < |once| && j != k ensures once[j].id != once[k].id {
        assert once[j] == todos[j];
      }
    }
    EchoedToggleFlipsOne(once, k);
    assert once[k := once[k].(isCompleted := !once[k].isCompleted)] == todos;
  }

  predicate IsPending(t: Task) { !t.isCompleted }

  predicate IsCompleted(t: Task) { t.isCompleted }

  /** The TODO section: the items not completed, in list order. */
  function PendingView(todos: seq<Task>): (r: seq<Task>)
    ensures forall x :: x in r <==> x in todos && !x.isCompleted
  {
    Filter(todos, IsPending)
  }

  /** The DONE section: the completed items, in list order. */
  function CompletedView(todos: seq<Task>): (r: seq<Task>)
    ensures forall x :: x in r <==> x in todos && x.isCompleted
  {
    Filter(todos, IsCompleted)
  }

  /**
   * The two sections partition the list: it is an order-preserving
   * interleaving of the pending and completed sections.
   */
  lemma ViewsPartition(todos: seq<Task>)
    ensures Interleaves(todos, PendingView(todos), CompletedView(todos))
    ensures |PendingView(todos)| + |CompletedView(todos)| == |todos|
    ensures multiset(PendingView(todos)) + multiset(CompletedView(todos)) == multiset(todos)
  {
    ComplementaryFiltersInterleave(todos, IsPending, IsCompleted);
    InterleavesCounts(todos, PendingView(todos), CompletedView(todos));
  }

  /** The TODO placeholder shows exactly when every item is completed. */
  predicate ShowsEmptyPending(todos: seq<Task>): (r: bool)
    ensures r <==> forall i | 0 <= i < |todos| :: todos[i].isCompleted
  {
    assert forall i | 0 <= i < |todos| :: !todos[i].isCompleted ==> todos[i] in PendingView(todos);
    assert |PendingView(todos)| != 0 ==> PendingView(todos)[0] in todos;
    |PendingView(todos)| == 0
  }

  /** The DONE placeholder shows exactly when no item is completed. */
  predicate ShowsEmptyCompleted(todos: seq<Task>): (r: bool)
    ensures r <==> forall i | 0 <= i < |todos| :: !todos[i].isCompleted
  {
    assert forall i | 0 <= i < |todos| :: todos[i].isCompleted ==> todos[i] in CompletedView(todos);
    assert |CompletedView(todos)| != 0 ==> CompletedView(todos)[0] in todos;
    |CompletedView(todos)| == 0
  }

  /** The component's state: the input buffer `task` and the list `todos`. */
  class TodoList {
    var task: string
    var todos: seq<Task>

    /** The initial state: an empty input and an empty list. */
    constructor ()
      ensures task == "" && todos == []
    {
      task := "";
      todos := [];
    }

    /** `fetchTodos` on mount: a successful GET replaces the list; a failure leaves it. */
    method FetchTodos(reply: Reply<seq<Task>>)
      modifies this
      ensures todos == (if reply.Ok? then reply.body else old(todos))
      ensures task == old(task)
    {
      if reply.Ok? {
        todos := reply.body;
      }
    }

    /** `handleInputChange`: the textarea's value becomes the input buffer. */
    method HandleInputChange(value: string)
      modifies this
      ensures task == value && todos == old(todos)
    {
      task := value;
    }

    /**
     * `addTask`: blank input sends nothing; otherwise `sent` is the POST body,
     * and when `reply` is a success the returned item is appended and the
     * input cleared. A failure changes nothing.
     */
    method AddTask(reply: Reply<Task>) returns (sent: Option<NewTask>)
      modifies this
      ensures sent == CreateRequest(old(task))
      ensures sent.Some? && reply.Ok? ==> todos == old(todos) + [reply.body] && task == ""
      ensures sent.None? || reply.Failed? ==> todos == old(todos) && task == old(task)
    {
      sent := CreateRequest(task);
      if sent.Some? && reply.Ok? {
        todos := todos + [reply.body];
        task := "";
      }
    }

    /**
     * `toggleTaskStatus(id)`: an id no item has sends nothing; otherwise
     * `sent` is the PUT body, and on success the items with that id take the
     * server's `isCompleted`. A failure changes nothing.
     */
    method ToggleTaskStatus(id: int, reply: Reply<Task>) returns (sent: Option<Task>)
      modifies this
      ensures sent == ToggleRequest(old(todos), id)
      ensures todos == (if sent.Some? && reply.Ok? then MergeCompleted(old(todos), id, reply.body.isCompleted) else old(todos))
      ensures task == old(task)
    {
      sent := ToggleRequest(todos, id);
      if sent.Some? && reply.Ok? {
        todos := MergeCompleted(todos, id, reply.body.isCompleted);
      }
    }
  }
}
