/**
 * The item detail screen (app/Items/Items.tsx): it loads one item, keeps a
 * memo edit buffer and a pending image file apart from the item, toggles the
 * item's status locally, and builds the body of the save request.
 * `URL.createObjectURL` is an opaque input (`objectUrl`).
 */
module ItemDetails {
  import opened Wrappers
  import opened StatusTodo

  /** `{ id: string, text: string, status: "todo" | "done", memo?: string, image?: string }`. */
  datatype DetailItem = DetailItem(id: string, text: string, status: Status, memo: Option<string>, image: Option<string>)

  /** What the file input hands over: the file's name and its size in bytes. */
  datatype File = File(name: string, size: nat)

  /** `5 * 1024 * 1024` bytes. */
  const MaxImageBytes: nat := 5 * 1024 * 1024

  /** The character class `[a-zA-Z0-9_\-\.]`. */
  predicate InNameClass(c: char) {
    || 'a' <= c <= 'z' || 'A' <= c <= 'Z' || '0' <= c <= '9'
    || c == '_' || c == '-' || c == '.'
  }

  /** The tail `[…]*$` of the pattern: every remaining character is in the class. */
  function MatchesClassStar(s: string): (r: bool)
    ensures r <==> forall i | 0 <= i < |s| :: InNameClass(s[i])
  {
    s == [] || (InNameClass(s[0]) && MatchesClassStar(s[1..]))
  }

  /**
   * `/^[a-zA-Z0-9_\-\.]+$/.test(name)`: one class character, then the rest
   * of the string is class characters; so the name is non-empty and made of
   * the class only.
   */
  function IsValidFileName(name: string): (r: bool)
    ensures r <==> name != [] && forall i | 0 <= i < |name| :: InNameClass(name[i])
  {
    name != [] && InNameClass(name[0]) && MatchesClassStar(name[1..])
  }

  /** The condition of `handleFileChange`: a file is chosen, small enough, and validly named. */
  function AcceptsImage(file: Option<File>): (r: bool)
    ensures r <==> && file.Some? && file.value.size <= 5_242_880 && file.value.name != []
                   && forall i | 0 <= i < |file.value.name| :: InNameClass(file.value.name[i])
  {
    file.Some? && file.value.size <= MaxImageBytes && IsValidFileName(file.value.name)
  }

  /** The size limit is inclusive: exactly 5 MiB passes, one byte more does not. */
  lemma SizeBoundary(name: string)
    requires IsValidFileName(name)
    ensures AcceptsImage(Some(File(name, 5_242_880)))
    ensures !AcceptsImage(Some(File(name, 5_242_881)))
  {
  }

  /** A 1 KB file named "photo_1.png" is accepted; the same name at 6 MB is not. */
  lemma SamplePhoto()
    ensures AcceptsImage(Some(File("photo_1.png", 1024)))
    ensures !AcceptsImage(Some(File("photo_1.png", 6 * 1024 * 1024)))
  {
    var name := "photo_1.png";
    assert forall i | 0 <= i < |name| :: InNameClass(name[i]) by {
      forall i | 0 <= i < |name| ensures InNameClass(name[i]) {
        assert name[i] in {'p', 'h', 'o', 't', '_', '1', '.', 'n', 'g'};
      }
    }
  }

  /** A name with a space and "!", an empty name and a missing file are refused. */
  lemma SampleRefusals()
    ensures !AcceptsImage(Some(File("bad name!.png", 1024)))
    ensures !AcceptsImage(Some(File("", 1024)))
    ensures !AcceptsImage(None)
  {
    assert !InNameClass("bad name!.png"[3]);
  }

  /** The checkbox's `setTodo`: a loaded item flips its status, `null` stays `null`. */
  function ToggleLoaded(todo: Option<DetailItem>): (r: Option<DetailItem>)
    ensures r.None? <==> todo.None?
    ensures r.Some? ==>
      && r.value.status != todo.value.status
      && r.value.id == todo.value.id && r.value.text == todo.value.text
      && r.value.memo == todo.value.memo && r.value.image == todo.value.image
  {
    match todo
    case None => None
    case Some(item) => Some(item.(status := Flip(item.status)))
  }

  /** Ticking the checkbox twice gives back the item. */
  lemma ToggleLoadedTwice(todo: Option<DetailItem>)
    ensures ToggleLoaded(ToggleLoaded(todo)) == todo
  {
  }

  /** The memo buffer after a load: the item's memo, "" when it is absent (or empty). */
  function MemoBuffer(item: DetailItem): (r: string)
    ensures item.memo.Some? ==> r == item.memo.value
    ensures item.memo.None? ==> r == ""
  {
    match item.memo
    case Some(m) => m
    case None => ""
  }

  /**
   * The body of the save request: the item spread out, then `memo` and
   * `image`. Spreading a `null` item contributes no field, so then only
   * `memo` and `image` remain.
   */
  datatype SaveBody = SaveBody(
    id: Option<string>, text: Option<string>, status: Option<Status>,
    memo: string, image: Option<string>)

  /**
   * `handleSave`'s body: the loaded item's fields, `memo` from the edit
   * buffer, and `image` the new object URL when a file is pending, else the
   * item's own image.
   */
  function SaveRequest(todo: Option<DetailItem>, memo: string, pending: Option<File>, objectUrl: string): (r: SaveBody)
    ensures r.memo == memo
    ensures pending.Some? ==> r.image == Some(objectUrl)
    ensures pending.None? ==> r.image == if todo.Some? then todo.value.image else None
    ensures todo.Some? ==> r.id == Some(todo.value.id) && r.text == Some(todo.value.text) && r.status == Some(todo.value.status)
    ensures todo.None? ==> r.id.None? && r.text.None? && r.status.None?
  {
    var image := if pending.Some? then Some(objectUrl) else if todo.Some? then todo.value.image else None;
    match todo
    case None => SaveBody(None, None, None, memo, image)
    case Some(item) => SaveBody(Some(item.id), Some(item.text), Some(item.status), memo, image)
  }

  /** How the server reads a save body back as an item, when it has all item fields. */
  function AsItem(body: SaveBody): (r: Option<DetailItem>)
    ensures r.Some? <==> body.id.Some? && body.text.Some? && body.status.Some?
    ensures r.Some? ==> r.value.memo == Some(body.memo) && r.value.image == body.image
  {
    if body.id.Some? && body.text.Some? && body.status.Some? then
      Some(DetailItem(body.id.value, body.text.value, body.status.value, Some(body.memo), body.image))
    else None
  }

  /** Saving a loaded item stores exactly the item with the edited memo and image. */
  lemma SaveCarriesEdits(item: DetailItem, memo: string, pending: Option<File>, objectUrl: string)
    ensures AsItem(SaveRequest(Some(item), memo, pending, objectUrl))
         == Some(item.(memo := Some(memo), image := if pending.Some? then Some(objectUrl) else item.image))
  {
  }

  /**
   * Saving right after a load, with no edits, sends the item back, except that
   * an absent memo is sent as "".
   */
  lemma UneditedSave(item: DetailItem, objectUrl: string)
    ensures item.memo.Some? ==> AsItem(SaveRequest(Some(item), MemoBuffer(item), None, objectUrl)) == Some(item)
    ensures item.memo.None? ==> AsItem(SaveRequest(Some(item), MemoBuffer(item), None, objectUrl)) == Some(item.(memo := Some("")))
  {
    SaveCarriesEdits(item, MemoBuffer(item), None, objectUrl);
  }

  /** The screen's state: the loaded item, the memo buffer and the pending image file. */
  class ItemDetails {
    /** `searchParams.get("id")`. */
    const itemId: Option<string>
    var todo: Option<DetailItem>
    var memo: string
    var uploadedImage: Option<File>

    /** The initial state: no item, an empty memo buffer, no pending file. */
    constructor (itemId: Option<string>)
      ensures this.itemId == itemId
      ensures todo.None? && memo == "" && uploadedImage.None?
    {
      this.itemId := itemId;
      todo := None;
      memo := "";
      uploadedImage := None;
    }

    /**
     * `fetchItem`: requested only when the id is truthy (present and not "");
     * a successful reply becomes the item and fills the memo buffer, a failure
     * changes nothing.
     */
    method FetchItem(reply: Reply<DetailItem>) returns (requested: bool)
      modifies this
      ensures requested == (itemId.Some? && itemId.value != "")
      ensures requested && reply.Ok? ==> todo == Some(reply.body) && memo == MemoBuffer(reply.body)
      ensures !(requested && reply.Ok?) ==> todo == old(todo) && memo == old(memo)
      ensures uploadedImage == old(uploadedImage)
    {
      requested := itemId.Some? && itemId.value != "";
      if requested && reply.Ok? {
        todo := Some(reply.body);
        memo := MemoBuffer(reply.body);
      }
    }

    /** The memo textarea's `onChange`: the buffer takes the typed value. */
    method EditMemo(value: string)
      modifies this
      ensures memo == value
      ensures todo == old(todo) && uploadedImage == old(uploadedImage)
    {
      memo := value;
    }

    /** `handleFileChange`: an accepted file becomes the pending image; anything else is refused. */
    method HandleFileChange(file: Option<File>) returns (accepted: bool)
      modifies this
      ensures accepted == AcceptsImage(file)
      ensures uploadedImage == if accepted then file else old(uploadedImage)
      ensures todo == old(todo) && memo == old(memo)
    {
      accepted := AcceptsImage(file);
      if accepted {
        uploadedImage := file;
      }
    }

    /** The status checkbox: flips the loaded item's status, touches nothing else. */
    method ToggleStatus()
      modifies this
      ensures todo == ToggleLoaded(old(todo))
      ensures memo == old(memo) && uploadedImage == old(uploadedImage)
    {
      todo := ToggleLoaded(todo);
    }

    /** `handleSave`: the PUT body built from the current state; the state itself is not changed. */
    method HandleSave(objectUrl: string) returns (body: SaveBody)
      ensures body == SaveRequest(todo, memo, uploadedImage, objectUrl)
      ensures AsItem(body).Some? <==> todo.Some?
    {
      body := SaveRequest(todo, memo, uploadedImage, objectUrl);
    }
  }
}
