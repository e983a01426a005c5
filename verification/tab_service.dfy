/**
  The tab repository: create, list, existence queries, read and patch-style
  update over the `tab` table, modelled as a map from id to stored row. The
  JSON `data` column is modelled as a record of optional fields, a field being
  absent exactly when `JSON.stringify` would leave it out (its value was undefined).
*/
module TabService {
  import opened Wrappers
  import opened Text
  import opened Types

  /** The contents of the `data` column. */
  datatype Body = Body(
    questions: Option<seq<Question>>,
    textInput: Option<string>,
    urlInput: Option<string>,
    fileInput: Option<string>)

  /** A stored row; `description` is `None` when the column is null. */
  datatype Row = Row(id: string, title: string, description: Option<string>, userId: string, data: Body)

  type Store = map<string, Row>

  datatype Error =
    | InvalidTabData      // the save request lacks a title or a user id
    | DuplicateTitle      // the user already has a tab with this title
    | IdTaken             // the database refused the create: the id is already a primary key
    | NotFound            // the database found no row to update

  /** The database after a request, and what the request returned or threw. */
  datatype Outcome = Outcome(store: Store, response: Result<Row, Error>)

  /** Every row is stored under its own id. */
  predicate WellKeyed(store: Store) {
    forall id | id in store :: store[id].id == id
  }

  /** `title.toLowerCase().replace(/ /g, "-")`: ASCII lower case, each U+0020 space becomes `-`. */
  function Slug(title: string): (r: string)
    ensures |r| == |title|
    ensures ' ' !in r
    ensures forall i | 0 <= i < |title| && title[i] == ' ' :: r[i] == '-'
    ensures forall i | 0 <= i < |title| && IsAsciiUpper(title[i]) :: r[i] as int == title[i] as int + 32
  {
    seq(|title|, i requires 0 <= i < |title| => if title[i] == ' ' then '-' else LowerChar(title[i]))
  }

  /** Slugging is idempotent: an id derived from a title is its own slug. */
  lemma SlugIdempotent(title: string)
    ensures Slug(Slug(title)) == Slug(title)
  {
    var s := Slug(title);
    forall i | 0 <= i < |s| ensures Slug(s)[i] == s[i] {
      if title[i] != ' ' {
        assert !IsAsciiUpper(LowerChar(title[i]));
      }
    }
  }

  /** Only the U+0020 space is replaced and only `A`-`Z` change case; tabs and other whitespace survive into the id. */
  lemma SlugKeepsOtherCharacters(title: string)
    ensures forall i | 0 <= i < |title| && title[i] != ' ' && !IsAsciiUpper(title[i]) :: Slug(title)[i] == title[i]
    ensures Slug("A\tB") == "a\tb"
  {
  }

  /** Two different titles can derive the same id. */
  lemma SlugCollides()
    ensures "My Tab" != "my-tab" && Slug("My Tab") == Slug("my-tab") == "my-tab"
  {
  }

  function BodyOf(input: TabPatch): Body {
    Body(input.questions, input.textInput, input.urlInput, input.fileInput)
  }

  /**
    `createTab(input)`: the id is the slug of the title; the row stores the title,
    description and user as given and a body of exactly the four body fields. A
    row already stored under that id makes the database refuse the create.
  */
  function CreateTab(store: Store, input: TabPatch): (r: Outcome)
    requires input.title.Some? && input.userId.Some?
    ensures var id := Slug(input.title.value);
      && (id in store ==> r == Outcome(store, Failure(IdTaken)))
      && (id !in store ==>
            && r.response.Success?
            && var row := r.response.value;
               && row.id == id && row.title == input.title.value && row.userId == input.userId.value
               && row.description == input.description
               && row.data == Body(input.questions, input.textInput, input.urlInput, input.fileInput)
               && r.store == store[id := row])
  {
    var id := Slug(input.title.value);
    if id in store then Outcome(store, Failure(IdTaken))
    else
      var row := Row(id, input.title.value, input.description, input.userId.value, BodyOf(input));
      Outcome(store[id := row], Success(row))
  }

  /** `getTabs(userId)`: the user's rows; the database promises no order, so this is a set. */
  function GetTabs(store: Store, userId: string): (r: set<Row>)
    ensures forall row :: row in r <==> row in store.Values && row.userId == userId
  {
    set row | row in store.Values && row.userId == userId
  }

  /** `tabExists(id)` */
  predicate TabExists(store: Store, id: string) {
    id in store
  }

  /** `tabExistsWithTitle(title, userId)` */
  predicate TabExistsWithTitle(store: Store, title: string, userId: string) {
    exists id | id in store :: store[id].title == title && store[id].userId == userId
  }

  /** The title query agrees with the user's listing: it asks whether some listed row has that title. */
  lemma TitleQueryMatchesListing(store: Store, title: string, userId: string)
    ensures TabExistsWithTitle(store, title, userId) <==> exists row | row in GetTabs(store, userId) :: row.title == title
  {
    if exists row | row in GetTabs(store, userId) :: row.title == title {
      var row :| row in GetTabs(store, userId) && row.title == title;
      var id :| id in store && store[id] == row;
    }
  }

  /** `tabExists(id)` holds exactly when `getTabById(id)` finds a row, and then the row carries that id. */
  lemma TabExistsIffReadable(store: Store, id: string)
    requires WellKeyed(store)
    ensures TabExists(store, id) <==> GetTabById(store, id).Some?
    ensures TabExists(store, id) ==> GetTabById(store, id).value.id == id
  {
  }

  /** `getTabById(id)`: the raw row, or `null`. */
  function GetTabById(store: Store, id: string): (r: Option<Row>)
    ensures r.Some? <==> TabExists(store, id)
    ensures r.Some? ==> r.value == store[id]
  {
    if id in store then Some(store[id]) else None
  }

  /** Whether a patch resends at least one body field (`Object.keys(data).length > 0`). */
  predicate HasBodyField(patch: TabPatch) {
    patch.questions.Some? || patch.textInput.Some? || patch.urlInput.Some? || patch.fileInput.Some?
  }

  /** The row after a patch: defined header fields overwrite, and a resent body replaces the stored one. */
  function Patched(row: Row, patch: TabPatch): Row {
    row.(title := patch.title.GetOr(row.title),
         description := if patch.description.Some? then patch.description else row.description,
         data := if HasBodyField(patch) then BodyOf(patch) else row.data)
  }

  /**
    `updateTab(patch)`: the id and owner never change; title and description
    change only when given; the body is replaced, by exactly the resent fields,
    only when at least one body field is resent. A missing row is an error.
  */
  function UpdateTab(store: Store, patch: TabPatch): (r: Outcome)
    requires patch.id.Some?
    ensures var id := patch.id.value;
      && (id !in store ==> r == Outcome(store, Failure(NotFound)))
      && (id in store ==>
            && r.response.Success?
            && var prev := store[id];
               var row := r.response.value;
               && r.store == store[id := row]
               && row.id == prev.id && row.userId == prev.userId
               && row.title == (if patch.title.Some? then patch.title.value else prev.title)
               && (patch.description.None? ==> row.description == prev.description)
               && (patch.description.Some? ==> row.description == patch.description)
               && (!HasBodyField(patch) ==> row.data == prev.data)
               && (HasBodyField(patch) ==>
                     row.data == Body(patch.questions, patch.textInput, patch.urlInput, patch.fileInput)))
  {
    var id := patch.id.value;
    if id !in store then Outcome(store, Failure(NotFound))
    else
      var row := Patched(store[id], patch);
      Outcome(store[id := row], Success(row))
  }

  /** Creating a tab makes the title query, the id query and the user's listing see it. */
  lemma CreateIsVisible(store: Store, input: TabPatch)
    requires input.title.Some? && input.userId.Some?
    requires CreateTab(store, input).response.Success?
    ensures var r := CreateTab(store, input);
      && TabExistsWithTitle(r.store, input.title.value, input.userId.value)
      && TabExists(r.store, Slug(input.title.value))
      && GetTabs(r.store, input.userId.value) == GetTabs(store, input.userId.value) + {r.response.value}
  {
    var r := CreateTab(store, input);
    var id := Slug(input.title.value);
    assert r.store[id].title == input.title.value;
    var row := r.response.value;
    forall x ensures x in GetTabs(r.store, input.userId.value) <==> x in GetTabs(store, input.userId.value) + {row} {
      if x in store.Values && x.userId == input.userId.value {
        var k :| k in store && store[k] == x;
        assert k != id && r.store[k] == x;
      }
      assert row == r.store[id];
    }
  }

  /** Creating a tab for one user leaves every other user's listing as it was. */
  lemma CreateLeavesOtherUsers(store: Store, input: TabPatch, other: string)
    requires input.title.Some? && input.userId.Some? && other != input.userId.value
    ensures GetTabs(CreateTab(store, input).store, other) == GetTabs(store, other)
  {
    var r := CreateTab(store, input);
    var id := Slug(input.title.value);
    if id !in store {
      forall x ensures x in GetTabs(r.store, other) <==> x in GetTabs(store, other) {
        if x in store.Values && x.userId == other {
          var k :| k in store && store[k] == x;
          assert k != id && r.store[k] == x;
        }
      }
    }
  }

  /** A created row reads back with exactly the body fields it was given. */
  lemma CreateThenGet(store: Store, input: TabPatch)
    requires input.title.Some? && input.userId.Some?
    requires Slug(input.title.value) !in store
    ensures var got := GetTabById(CreateTab(store, input).store, Slug(input.title.value));
      && got.Some?
      && got.value.data.questions == input.questions
      && got.value.data.textInput == input.textInput
      && got.value.data.urlInput == input.urlInput
      && got.value.data.fileInput == input.fileInput
  {
  }

  /** A patch with no body field keeps the stored body: resending only the title loses nothing. */
  lemma UpdateWithoutBodyKeepsBody(store: Store, id: string, title: string)
    requires id in store
    ensures var patch := TabPatch(Some(id), Some(title), None, None, None, None, None, None);
      UpdateTab(store, patch).store[id].data == store[id].data
  {
  }

  /** A patch that resends only some body fields drops the stored values of the others. */
  lemma UpdateDropsUnsentBodyFields()
    ensures var q := Question("Size", "number", None, None, None, None, Some(false));
      var store := map["t" := Row("t", "T", None, "u", Body(Some([q]), Some("old"), Some("https://a"), None))];
      var patch := TabPatch(Some("t"), None, None, None, Some("new"), None, None, None);
      UpdateTab(store, patch).store["t"].data == Body(None, Some("new"), None, None)
  {
  }

  /** Applying the same patch twice is the same as applying it once. */
  lemma UpdateIsIdempotent(store: Store, patch: TabPatch)
    requires patch.id.Some?
    ensures var once := UpdateTab(store, patch);
      UpdateTab(once.store, patch) == Outcome(once.store, once.response)
  {
    var id := patch.id.value;
    if id in store {
      var row := Patched(store[id], patch);
      assert Patched(row, patch) == row;
      assert store[id := row][id := row] == store[id := row];
    }
  }

  /** Create and update keep every row under its own id. */
  lemma WritesKeepWellKeyed(store: Store, patch: TabPatch)
    requires WellKeyed(store)
    ensures patch.title.Some? && patch.userId.Some? ==> WellKeyed(CreateTab(store, patch).store)
    ensures patch.id.Some? ==> WellKeyed(UpdateTab(store, patch).store)
  {
  }
}
