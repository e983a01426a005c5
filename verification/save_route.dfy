/**
  `POST /api/tab/save` and its `GET`: a request without a title or user id is
  refused; a request without an id creates the tab unless the user already has
  one with that title; a request with an id patches that row, with no title
  check and no ownership check.
*/
module SaveRoute {
  import opened Wrappers
  import opened Text
  import opened Types
  import opened TabService

  /** Whether the request takes the create branch (`!tab.id || tab.id === ""`). */
  predicate IsCreate(req: TabPatch) {
    Falsy(req.id)
  }

  /** `POST(req)` */
  function Post(store: Store, req: TabPatch): (r: Outcome)
    ensures Falsy(req.title) || Falsy(req.userId) ==> r == Outcome(store, Failure(InvalidTabData))
    ensures !Falsy(req.title) && !Falsy(req.userId) && IsCreate(req) ==>
      if TabExistsWithTitle(store, req.title.value, req.userId.value)
      then r == Outcome(store, Failure(DuplicateTitle))
      else r == CreateTab(store, req)
    ensures !Falsy(req.title) && !Falsy(req.userId) && !IsCreate(req) ==> r == UpdateTab(store, req)
    ensures r.response.Failure? ==> r.store == store
  {
    if Falsy(req.title) || Falsy(req.userId) then Outcome(store, Failure(InvalidTabData))
    else if IsCreate(req) then
      if TabExistsWithTitle(store, req.title.value, req.userId.value) then Outcome(store, Failure(DuplicateTitle))
      else CreateTab(store, req)
    else UpdateTab(store, req)
  }

  /** `GET(id)`: the raw stored row, or `null`. */
  function Get(store: Store, id: string): (r: Option<Row>)
    ensures r.Some? <==> id in store
    ensures r.Some? ==> r.value == store[id]
  {
    GetTabById(store, id)
  }

  /** No user holds two rows with the same title. */
  ghost predicate UniqueTitlesPerUser(store: Store) {
    forall a, b | a in store && b in store && a != b && store[a].userId == store[b].userId ::
      store[a].title != store[b].title
  }

  /** The create branch never gives a user a second tab with the same title. */
  lemma CreatePreservesUniqueTitles(store: Store, req: TabPatch)
    requires UniqueTitlesPerUser(store)
    requires IsCreate(req)
    ensures UniqueTitlesPerUser(Post(store, req).store)
  {
    var r := Post(store, req);
    if r.response.Success? {
      var id := Slug(req.title.value);
      assert !TabExistsWithTitle(store, req.title.value, req.userId.value);
      forall a, b | a in r.store && b in r.store && a != b && r.store[a].userId == r.store[b].userId
        ensures r.store[a].title != r.store[b].title
      {
        if a == id {
          assert r.store[b] == store[b];
        } else if b == id {
          assert r.store[a] == store[a];
        }
      }
    }
  }

  /** The update branch can give a user two tabs with the same title: it skips the title query. */
  lemma UpdateCanDuplicateTitle()
    ensures var empty := Body(None, None, None, None);
      var store := map["a" := Row("a", "A", None, "u", empty), "b" := Row("b", "B", None, "u", empty)];
      var req := TabPatch(Some("b"), Some("A"), Some("u"), None, None, None, None, None);
      UniqueTitlesPerUser(store) && !UniqueTitlesPerUser(Post(store, req).store)
  {
    var empty := Body(None, None, None, None);
    var store := map["a" := Row("a", "A", None, "u", empty), "b" := Row("b", "B", None, "u", empty)];
    var req := TabPatch(Some("b"), Some("A"), Some("u"), None, None, None, None, None);
    var after := Post(store, req).store;
    assert after["a"].title == after["b"].title;
  }

  /** The update branch never compares the request's user with the row's owner, and the owner stays. */
  lemma UpdateIgnoresRequester()
    ensures var store := map["t" := Row("t", "Mine", None, "alice", Body(None, None, None, None))];
      var req := TabPatch(Some("t"), Some("Taken"), Some("mallory"), None, None, None, None, None);
      var r := Post(store, req);
      r.response.Success? && r.store["t"].title == "Taken" && r.store["t"].userId == "alice"
  {
  }

  /** A title differing from every stored title can still fail: its slug is already an id. */
  lemma CreateCanCollideOnId()
    ensures var store := map["my-tab" := Row("my-tab", "my-tab", None, "u", Body(None, None, None, None))];
      var req := TabPatch(None, Some("My Tab"), Some("u"), None, None, None, None, None);
      !TabExistsWithTitle(store, "My Tab", "u") && Post(store, req) == Outcome(store, Failure(IdTaken))
  {
    SlugCollides();
  }

  /** A title none of the requester's rows has is no duplicate: when its slug is free, the create succeeds. */
  lemma OtherUserTitleIsNoDuplicate(store: Store, req: TabPatch)
    requires !Falsy(req.title) && !Falsy(req.userId) && IsCreate(req)
    requires forall id | id in store && store[id].title == req.title.value :: store[id].userId != req.userId.value
    requires Slug(req.title.value) !in store
    ensures Post(store, req).response.Success?
  {
  }

  /**
    Ids are slugs of titles shared by all users, so once one user has created a
    tab, another user's create with the same title always fails: with
    `DuplicateTitle` if they already hold a row of that title, otherwise with `IdTaken`.
  */
  lemma CreatedTitleBlocksOtherUsers(store: Store, req: TabPatch, other: TabPatch)
    requires IsCreate(req) && Post(store, req).response.Success?
    requires IsCreate(other) && !Falsy(other.userId) && other.title == req.title
    requires other.userId != req.userId
    ensures var after := Post(store, req).store;
      && Post(after, other).response.Failure?
      && (!TabExistsWithTitle(store, req.title.value, other.userId.value) ==>
            Post(after, other).response == Failure(IdTaken))
  {
    var after := Post(store, req).store;
    var id := Slug(req.title.value);
    assert id in after;
    if TabExistsWithTitle(after, req.title.value, other.userId.value) {
      var k :| k in after && after[k].title == req.title.value && after[k].userId == other.userId.value;
      assert k != id;
      assert k in store && store[k] == after[k];
    }
  }
}
