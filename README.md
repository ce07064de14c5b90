# Verified model of the Next.JS todo list's collection logic

The application is a small browser todo list. This project models the part of it that is
more than rendering and `fetch` calls: the in-memory collection logic that every screen
repeats.

- **Local list** (`containers/TodoList/TodoList.tsx`). Items are `{id: string, text, status: "todo" | "done"}`
  and live only in component state. `addTask` appends an item only for non-blank input.
  `toggleTaskStatus` flips the status of every item with the given id. Two filters split
  the list into a TODO section and a DONE section.
- **Remote list, string ids** (`app/TodoList/TodoListAPI.tsx`). Same item shape. `addTask` POSTs
  `{text, status: "todo"}` and appends the created item. `toggleTaskStatus` PUTs the flipped
  status and replaces the matching items by the server's item.
- **Remote list, numeric ids** (`app/TodoList/TodoList.tsx`). Items are `{id: number, name, isCompleted}`.
  `addTask` POSTs `{name}`. `toggleTaskStatus` finds the item, PUTs it with `isCompleted`
  negated, and merges back only the server's `isCompleted`.
- **Item detail** (`app/Items/Items.tsx`). It holds the loaded item, a memo edit buffer and a
  pending image file. It has the image acceptance rule (at most 5 MiB, name matching
  `^[a-zA-Z0-9_\-\.]+$`), the status checkbox, and the body of the save request.

Each screen is a `class` whose fields are the React state (`task`, `todos`; or `todo`,
`memo`, `uploadedImage`). Its methods are the handlers, and each method states its new
state as a function of the old state. The expressions the handlers use (`trim`, `map`,
`filter`, `find`, object spreads) are pure functions, and lemmas state their properties.

A server response is an input to its handler: `Reply<T>` is `Ok(body)` or `Failed`. Each
handler runs as one atomic step. Three values are opaque inputs with no uniqueness
guarantee: the uuid generator's result (`newId`; it may repeat, and it is `""` during
server-side rendering), `URL.createObjectURL`'s result (`objectUrl`), and the detail
screen's `id` search parameter. JavaScript's `String.prototype.trim` is modelled exactly.
It strips ECMAScript's WhiteSpace and LineTerminator code points (module `JsText`).

Files: `wrappers.dfy` (Option, Reply), `js_text.dfy` (trim), `views.dfy` (filter and
interleaving), `status_todo.dfy` (the shared string-id item and its sections),
`local_todo_list.dfy`, `api_todo_list.dfy`, `numeric_todo_list.dfy`, `item_details.dfy`.

Behaviour of the code worth noting:
- No list variant updates optimistically. The local list never sends a request. Both remote
  lists change `todos` only after a successful reply, so a failed request changes nothing.
- The numeric variant's create request carries only `{name}`. The completion state is the server's choice.
- `Items.tsx` does not upload the image before saving. It sends `URL.createObjectURL(file)`
  as `image` in a PUT, and a failed fetch only logs; it does not redirect.
- `fetchItem` needs a truthy id: an empty `id` parameter sends no request, just like a missing one.
- `TodoListAPI.tsx` calls `fetchTodos` from two mount effects (lines 37-38 and 101-103), so mounting sends two GETs.
  Each is one `FetchTodos` step here, and with atomic handlers the reply applied last decides the list.
- `ItemDetails.AsItem` is a specification helper, not part of `Items.tsx`: it reads a save body that carries
  every item field back as an item, so that `SaveCarriesEdits` and `UneditedSave` can be stated as item equalities.

## Model

| member | source | states |
|---|---|---|
| JsText.Trim | containers/TodoList/TodoList.tsx:28 | the trimmed text is no longer than the input and neither starts nor ends with whitespace |
| JsText.TrimSplits | containers/TodoList/TodoList.tsx:31 | the input is a whitespace prefix, then the trimmed text, then a whitespace suffix |
| JsText.TrimOfPadded | containers/TodoList/TodoList.tsx:31 | trimming whitespace + t + whitespace gives exactly t when t has no whitespace at its ends |
| JsText.TrimIdempotent | containers/TodoList/TodoList.tsx:31 | trimming twice equals trimming once |
| JsText.BlankIffAllWhitespace | containers/TodoList/TodoList.tsx:28 | `task.trim()` is falsy exactly when every character of the input is whitespace (both directions) |
| JsText.SubmittedText | app/TodoList/TodoList.tsx:45-52 | no text for blank input; otherwise the trimmed input, which is non-empty and already trimmed |
| Views.Filter | containers/TodoList/TodoList.tsx:84-85 | every kept element is in the list and satisfies the test; every list element that passes is kept |
| Views.FilterConcat | containers/TodoList/TodoList.tsx:29-32 | filtering a concatenation is the concatenation of the filtered parts |
| Views.ComplementaryFiltersInterleave | containers/TodoList/TodoList.tsx:84-111 | two complementary filters split a list into an order-preserving interleaving of their results |
| Views.InterleavesCounts | containers/TodoList/TodoList.tsx:84-111 | an interleaving keeps the total length and the multiset of elements |
| StatusTodo.Flip | containers/TodoList/TodoList.tsx:42 | the flipped status is the other one of the two statuses |
| StatusTodo.TodoView | containers/TodoList/TodoList.tsx:84-85 | an item is in the TODO section iff it is in the list with status "todo" |
| StatusTodo.DoneView | containers/TodoList/TodoList.tsx:110-111 | an item is in the DONE section iff it is in the list with status "done" |
| StatusTodo.ViewsPartition | app/TodoList/TodoListAPI.tsx:141-197 | the list is an order-preserving interleaving of its TODO and DONE sections; lengths and multisets add up |
| StatusTodo.ViewsOfAppended | containers/TodoList/TodoList.tsx:29-32 | an appended item shows last in its own section; the other section is unchanged |
| LocalTodoList.AfterAdd | containers/TodoList/TodoList.tsx:27-35 | blank input leaves the list; otherwise the list grows by one, earlier items are unchanged, and the last item is (newId, trimmed input, "todo") |
| LocalTodoList.FlipItem | containers/TodoList/TodoList.tsx:42 | the mapped item keeps its id and text and has the other status |
| LocalTodoList.ToggleMatching | containers/TodoList/TodoList.tsx:38-46 | same length; every item whose id matches flips (colliding ids all flip); every other item is unchanged in place |
| LocalTodoList.ToggleKeepsIdsAndTexts | containers/TodoList/TodoList.tsx:39-45 | toggling keeps the length and the sequences of ids and of texts |
| LocalTodoList.ToggleTwice | containers/TodoList/TodoList.tsx:41-43 | toggling the same id twice is the identity |
| LocalTodoList.ToggleAbsent | containers/TodoList/TodoList.tsx:41-43 | toggling an id no item carries is the identity |
| LocalTodoList.ToggleMovesItem | containers/TodoList/TodoList.tsx:84-118 | with an unshared id, ticking an item puts its flipped copy in the other section and removes it from its own |
| LocalTodoList.BuyMilkScenario | containers/TodoList/TodoList.tsx:27-46 | adding "  Buy milk " to an empty list shows "Buy milk" under TODO; ticking it moves it to DONE |
| LocalTodoList.TodoList.constructor | containers/TodoList/TodoList.tsx:23-24 | starts with an empty input and an empty list |
| LocalTodoList.TodoList.HandleInputChange | containers/TodoList/TodoList.tsx:49-51 | the input takes the typed value; the list is unchanged |
| LocalTodoList.TodoList.AddTask | containers/TodoList/TodoList.tsx:27-35 | the list becomes AfterAdd of the old list; the input is cleared exactly when it was non-blank; every item keeps a non-empty trimmed text |
| LocalTodoList.TodoList.ToggleTaskStatus | containers/TodoList/TodoList.tsx:38-46 | the list becomes ToggleMatching of the old list; the input is unchanged |
| ApiTodoList.CreateRequest | app/TodoList/TodoListAPI.tsx:54-56 | no request for blank input; otherwise the body is {text: trimmed input, status: "todo"} with a non-empty text |
| ApiTodoList.ToggleRequest | app/TodoList/TodoListAPI.tsx:80-83 | the PUT targets the clicked id and asks for the status other than currentStatus |
| ApiTodoList.ToggleRequestTwice | app/TodoList/TodoListAPI.tsx:80-82 | computing the requested status twice gives the original status |
| ApiTodoList.ReplaceMatching | app/TodoList/TodoListAPI.tsx:92-94 | same length; items with the matching id become the server's item; all others are unchanged in place |
| ApiTodoList.ReplaceAbsent | app/TodoList/TodoListAPI.tsx:92-94 | a reply for an id no item carries leaves the list unchanged |
| ApiTodoList.ReplaceIdempotent | app/TodoList/TodoListAPI.tsx:92-94 | applying the same reply twice gives the same list as applying it once |
| ApiTodoList.EchoedReplaceIsLocalToggle | app/TodoList/TodoListAPI.tsx:92-94 | with unique ids and a server that echoes the flipped item, the result equals the local list's in-place flip |
| ApiTodoList.ShowsEmptyTodo | app/TodoList/TodoListAPI.tsx:141 | the TODO placeholder shows iff no item has status "todo" |
| ApiTodoList.ShowsEmptyDone | app/TodoList/TodoListAPI.tsx:182 | the DONE placeholder shows iff no item has status "done" |
| ApiTodoList.TodoList.constructor | app/TodoList/TodoListAPI.tsx:17-18 | starts with an empty input and an empty list |
| ApiTodoList.TodoList.FetchTodos | app/TodoList/TodoListAPI.tsx:25-34 | a successful GET replaces the list; a failure leaves it; the input is unchanged |
| ApiTodoList.TodoList.HandleInputChange | app/TodoList/TodoListAPI.tsx:106-108 | the input takes the typed value; the list is unchanged |
| ApiTodoList.TodoList.AddTask | app/TodoList/TodoListAPI.tsx:53-72 | sends CreateRequest of the input; on success appends the created item and clears the input; blank input or failure changes nothing |
| ApiTodoList.TodoList.ToggleTaskStatus | app/TodoList/TodoListAPI.tsx:75-98 | always sends the flipped status; on success replaces the matching items by the reply; on failure the list is unchanged |
| NumericTodoList.CreateRequest | app/TodoList/TodoList.tsx:45-52 | no request for blank input; otherwise the body is {name: trimmed input} with a non-empty name |
| NumericTodoList.Find | app/TodoList/TodoList.tsx:71-72 | nothing iff no item has the id; otherwise the first item with that id |
| NumericTodoList.FindUnique | app/TodoList/TodoList.tsx:71 | with unique ids, find returns the one item carrying the id |
| NumericTodoList.ToggleRequest | app/TodoList/TodoList.tsx:71-79 | no request iff the id is absent; otherwise the found item with the same id and name and isCompleted negated |
| NumericTodoList.MergeCompleted | app/TodoList/TodoList.tsx:87-89 | same length and order; every item keeps its id and name; only matching items take the new isCompleted |
| NumericTodoList.MergeAbsent | app/TodoList/TodoList.tsx:87-89 | merging into an id no item carries leaves the list unchanged |
| NumericTodoList.AfterEchoedToggle | app/TodoList/TodoList.tsx:71-89 | toggling against a server that echoes the PUT body keeps the list's length |
| NumericTodoList.EchoedToggleFlipsOne | app/TodoList/TodoList.tsx:79-89 | with unique ids and an echoing server, exactly the ticked item's isCompleted is negated |
| NumericTodoList.EchoedToggleTwice | app/TodoList/TodoList.tsx:69-93 | with unique ids and an echoing server, toggling the same item twice gives the list back |
| NumericTodoList.PendingView | app/TodoList/TodoList.tsx:149-150 | an item is in the TODO section iff it is in the list and not completed |
| NumericTodoList.CompletedView | app/TodoList/TodoList.tsx:193-194 | an item is in the DONE section iff it is in the list and completed |
| NumericTodoList.ViewsPartition | app/TodoList/TodoList.tsx:135-194 | the list is an order-preserving interleaving of the pending and completed sections; lengths and multisets add up |
| NumericTodoList.ShowsEmptyPending | app/TodoList/TodoList.tsx:135 | the TODO placeholder shows iff every item is completed |
| NumericTodoList.ShowsEmptyCompleted | app/TodoList/TodoList.tsx:179 | the DONE placeholder shows iff no item is completed |
| NumericTodoList.TodoList.constructor | app/TodoList/TodoList.tsx:18-19 | starts with an empty input and an empty list |
| NumericTodoList.TodoList.FetchTodos | app/TodoList/TodoList.tsx:26-41 | a successful GET replaces the list; a failure leaves it; the input is unchanged |
| NumericTodoList.TodoList.HandleInputChange | app/TodoList/TodoList.tsx:96-98 | the input takes the typed value; the list is unchanged |
| NumericTodoList.TodoList.AddTask | app/TodoList/TodoList.tsx:44-66 | sends CreateRequest of the input; on success appends the returned item and clears the input; blank input or failure changes nothing |
| NumericTodoList.TodoList.ToggleTaskStatus | app/TodoList/TodoList.tsx:69-93 | an absent id sends nothing and changes nothing; otherwise sends ToggleRequest; on success merges the reply's isCompleted into the matching items; on failure nothing changes |
| ItemDetails.MatchesClassStar | app/Items/Items.tsx:84 | the pattern tail `[…]*$` matches iff every character is in the class |
| ItemDetails.IsValidFileName | app/Items/Items.tsx:84 | the file-name pattern matches iff the name is non-empty and every character is a letter, a digit, `_`, `-` or `.` |
| ItemDetails.AcceptsImage | app/Items/Items.tsx:81-85 | a file is accepted iff it is present, at most 5242880 bytes, and has a non-empty name drawn only from the class |
| ItemDetails.SizeBoundary | app/Items/Items.tsx:83 | with a valid name, 5242880 bytes is accepted and 5242881 is refused |
| ItemDetails.SamplePhoto | app/Items/Items.tsx:81-85 | "photo_1.png" at 1 KB is accepted; at 6 MB it is refused |
| ItemDetails.SampleRefusals | app/Items/Items.tsx:80-85 | "bad name!.png", an empty name and a missing file are refused |
| ItemDetails.ToggleLoaded | app/Items/Items.tsx:102-111 | null stays null; a loaded item gets the other status and keeps id, text, memo and image |
| ItemDetails.ToggleLoadedTwice | app/Items/Items.tsx:102-111 | ticking the checkbox twice gives back the item |
| ItemDetails.MemoBuffer | app/Items/Items.tsx:36 | the memo buffer after a load is the item's memo, or "" when it has none |
| ItemDetails.SaveRequest | app/Items/Items.tsx:48-52 | the body copies the loaded item's id, text and status; memo is the buffer; image is the object URL when a file is pending, else the item's image; with no item only memo and image remain |
| ItemDetails.SaveCarriesEdits | app/Items/Items.tsx:48-52 | the saved body, read back as an item (AsItem), is the loaded item with only memo and image replaced by the edits |
| ItemDetails.UneditedSave | app/Items/Items.tsx:35-52 | saving right after a load sends the item back unchanged, except that an absent memo becomes "" |
| ItemDetails.ItemDetails.constructor | app/Items/Items.tsx:19-23 | no item is loaded, the memo buffer is "" and no image is pending |
| ItemDetails.ItemDetails.FetchItem | app/Items/Items.tsx:28-43 | a request is made iff the id is truthy; on success the item is loaded and the memo buffer set from it; otherwise nothing changes |
| ItemDetails.ItemDetails.EditMemo | app/Items/Items.tsx:133 | the memo buffer takes the typed value; nothing else changes |
| ItemDetails.ItemDetails.HandleFileChange | app/Items/Items.tsx:79-92 | the result is AcceptsImage of the file; an accepted file becomes the pending image; a refused or missing one leaves it |
| ItemDetails.ItemDetails.ToggleStatus | app/Items/Items.tsx:102-111 | the item becomes ToggleLoaded of the old item; the buffers are unchanged |
| ItemDetails.ItemDetails.HandleSave | app/Items/Items.tsx:46-57 | the PUT body is SaveRequest of the current state, and it is a full item exactly when an item is loaded |

## Left out

- HTTP itself is not modelled: URLs, the tenant id, headers, JSON encoding, `response.ok` and exceptions. Every request outcome is an input `Reply`, and a failure of any kind is `Failed`.
- Navigation (`router.push`, `handleTodoClick`), `alert` and `console.error` are not modelled. They are side effects with nothing to state beyond "happens on success or failure".
- `handleDelete` in `app/Items/Items.tsx` only sends a DELETE and navigates. It changes no state the model holds, so it is not modelled.
- Rendering, images, CSS, `isSmallScreen` and the resize listener are not modelled. The only parts of the markup the model keeps are the section filters and the empty-state conditions.
- Overlapping asynchronous requests are not modelled: each handler is one atomic step. So the difference between the `todos` read by `find` and the `prev` seen by the functional `setTodos` update does not appear.
- `uuidv4` and `URL.createObjectURL` are opaque values passed in. They carry no uniqueness or freshness guarantee.
- Status strings are the two-valued `Status`. A server item with any other `status` string cannot be represented.
- Strings are sequences of Unicode scalar values, not UTF-16 code units. For `trim` and the file-name pattern this changes nothing: every whitespace code point is in the Basic Multilingual Plane, and every class character is ASCII.
- `app/layout.tsx` and `app/Items/[itemId]/page.tsx` are not part of this model.
- LocalTodoList.ToggleMovesItem: stated only for an id no other item shares. With shared ids, every sharing item flips too, which ToggleMatching states.
- NumericTodoList.EchoedToggleFlipsOne: stated only for unique ids and a server that echoes the body. With duplicate ids, every match takes the first match's negated flag, which MergeCompleted and ToggleRequest state.
