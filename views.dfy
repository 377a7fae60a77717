/**
  The views that carry rules of their own: deleting a category with a chosen
  disposition for its tasks and events, the inbox that can be neither deleted
  nor edited, the inbox fallback when a task or event is created without a
  category, and the task list's filters and order.
*/
module Views {
  import opened Wrappers
  import opened Text
  import opened Collections
  import opened Models
  import opened Signals
  import opened Forms

  /** The pages a view redirects to. */
  datatype Page = CategoryDetail(pk: nat) | CategoryList | TaskList | EventList

  /** What the delete page offers: the category, the user's other categories, and the inbox. */
  datatype DeleteOptions = DeleteOptions(category: Category, others: seq<Category>, inbox: Category)

  /**
    A view's answer: a database error the view does not catch becomes a server error, and
    an invalid form is shown again with its error message.
  */
  datatype Response =
    | NotFound
    | Redirect(to: Page)
    | ShowOptions(options: DeleteOptions)
    | FormInvalid(message: string)
    | ServerError(error: DbError)

  // ------------------------------------------------------------ lookups

  /** `get_object_or_404(Category, pk=pk, owner=u)`. */
  function GetCategory(cs: seq<Category>, pk: int, u: UserId): (r: Option<Category>)
    ensures r.Some? ==> r.value in cs && r.value.id == pk && r.value.owner == u
    ensures r.None? <==> forall c :: c in cs ==> !(c.id == pk && c.owner == u)
  {
    var found := Filter(cs, (c: Category) => c.id == pk && c.owner == u);
    if |found| == 0 then None
    else
      assert found[0] in found;
      Some(found[0])
  }

  /** `CategoryUpdateView.get_queryset`: the user's categories without the inbox. */
  function EditableCategories(cs: seq<Category>, u: UserId): (r: seq<Category>)
    ensures forall c :: c in r <==> c in cs && c.owner == u && !c.isInbox
  {
    Filter(cs, (c: Category) => c.owner == u && !c.isInbox)
  }

  /** The inbox is never among the categories that can be renamed. */
  lemma InboxIsNotEditable(cs: seq<Category>, u: UserId, c: Category)
    requires c.isInbox
    ensures c !in EditableCategories(cs, u)
  {
  }

  // ---------------------------------------------------- category delete

  /** `CategoryDeleteView.get`: the options page, after making sure the user has an inbox. */
  function DeleteGetOutcome(t: Tables, u: UserId, pk: nat): (Tables, Response)
  {
    match GetCategory(t.categories, pk, u)
    case None => (t, NotFound)
    case Some(c) =>
      if c.isInbox then (t, Redirect(CategoryDetail(c.id)))
      else
        var (t1, inbox) := GetOrCreateInboxOutcome(t, u);
        if inbox.Err? then (t1, ServerError(inbox.error))
        else (t1, ShowOptions(DeleteOptions(c, Filter(t1.categories, (x: Category) => x.owner == u && x.id != c.id), inbox.value)))
  }

  /**
    `CategoryDeleteView.post`: after the inbox is ensured, the user's tasks and events
    in the category are disposed of as `Dispose` says, and the category is deleted.
  */
  function DeletePostOutcome(t: Tables, u: UserId, pk: nat, action: Option<string>, target: Option<int>): (Tables, Response)
  {
    match GetCategory(t.categories, pk, u)
    case None => (t, NotFound)
    case Some(c) =>
      if c.isInbox then (t, Redirect(CategoryDetail(c.id)))
      else
        var (t1, inbox) := GetOrCreateInboxOutcome(t, u);
        if inbox.Err? then (t1, ServerError(inbox.error))
        else Dispose(t1, u, c.id, inbox.value.id, action, target)
  }

  /**
    The rest of `CategoryDeleteView.post`, once the inbox `inboxId` exists: `u`'s tasks and
    events in category `pk` are deleted (`"delete_all"`), moved to a category of `u`'s
    (`"move"`, 404 when there is none with that key) or moved to the inbox (any other
    action); then category `pk` is deleted.
  */
  function Dispose(t: Tables, u: UserId, pk: nat, inboxId: nat, action: Option<string>, target: Option<int>): (Tables, Response)
  {
    if action == Some("delete_all") then
      (DeleteCategoryOutcome(RemoveCategoryRowsOutcome(t, u, pk), pk), Redirect(CategoryList))
    else if action == Some("move") then
      var dest := if target.Some? then GetCategory(t.categories, target.value, u) else None;
      if dest.None? then (t, NotFound)
      else (DeleteCategoryOutcome(MoveCategoryRowsOutcome(t, u, pk, dest.value.id), pk), Redirect(CategoryList))
    else
      (DeleteCategoryOutcome(MoveCategoryRowsOutcome(t, u, pk, inboxId), pk), Redirect(CategoryList))
  }

  /** `CategoryDeleteView.get` on the database. */
  method CategoryDeleteGet(db: Db, u: UserId, pk: nat) returns (resp: Response)
    requires db.Valid()
    modifies db
    ensures db.Valid()
    ensures (db.Snapshot(), resp) == DeleteGetOutcome(old(db.Snapshot()), u, pk)
  {
    var category := GetCategory(db.categories, pk, u);
    if category.None? {
      return NotFound;
    }
    var c := category.value;
    if c.isInbox {
      return Redirect(CategoryDetail(c.id));
    }
    var inbox := db.GetOrCreateInbox(u);
    if inbox.Err? {
      return ServerError(inbox.error);
    }
    var others := Filter(db.categories, (x: Category) => x.owner == u && x.id != c.id);
    resp := ShowOptions(DeleteOptions(c, others, inbox.value));
  }

  /** `CategoryDeleteView.post` on the database: bulk updates or deletes, then the category's own delete. */
  method CategoryDeletePost(db: Db, u: UserId, pk: nat, action: Option<string>, target: Option<int>) returns (resp: Response)
    requires db.Valid()
    modifies db
    ensures db.Valid()
    ensures (db.Snapshot(), resp) == DeletePostOutcome(old(db.Snapshot()), u, pk, action, target)
  {
    var category := GetCategory(db.categories, pk, u);
    if category.None? {
      return NotFound;
    }
    var c := category.value;
    if c.isInbox {
      return Redirect(CategoryDetail(c.id));
    }
    var inbox := db.GetOrCreateInbox(u);
    if inbox.Err? {
      return ServerError(inbox.error);
    }
    InboxOutcomeIsInbox(old(db.Snapshot()), u);
    if action == Some("delete_all") {
      db.RemoveCategoryRows(u, c.id);
    } else if action == Some("move") {
      var dest := if target.Some? then GetCategory(db.categories, target.value, u) else None;
      if dest.None? {
        return NotFound;
      }
      db.MoveCategoryRows(u, c.id, dest.value.id);
    } else {
      db.MoveCategoryRows(u, c.id, inbox.value.id);
    }
    db.DeleteCategory(c.id);
    resp := Redirect(CategoryList);
  }

  // ------------------------------------------- what a delete request does

  /** With distinct keys, the lookup finds the one category of `u`'s with that key. */
  lemma GetCategoryFinds(cs: seq<Category>, c: Category)
    requires Pairwise(cs, CategoriesApart) && c in cs
    ensures GetCategory(cs, c.id, c.owner) == Some(c)
  {
    var r := GetCategory(cs, c.id, c.owner);
    var i :| 0 <= i < |cs| && cs[i] == c;
    var j :| 0 <= j < |cs| && cs[j] == r.value;
    assert i == j || CategoriesApart(cs[i], cs[j]);
  }

  /** The request reaches the disposition: `c` is `u`'s, not the inbox, and the inbox lookup succeeds. */
  ghost predicate Disposable(t: Tables, u: UserId, c: Category) {
    && TablesValid(t)
    && c in t.categories && c.owner == u && !c.isInbox
    && GetOrCreateInboxOutcome(t, u).1.Ok?
  }

  /**
    Row by row, `after` is `before` with only categories changed: `u`'s rows in
    category `pk` now name `dest`, other users' rows in `pk` name no category,
    and every other row is as it was.
  */
  ghost predicate MovedTo<F>(before: seq<Row<F>>, after: seq<Row<F>>, u: UserId, pk: nat, dest: Option<nat>) {
    && |after| == |before|
    && forall i :: 0 <= i < |before| ==>
         && after[i].(category := before[i].category) == before[i]
         && after[i].category ==
              (if InCategory(before[i], u, pk) then dest
               else if before[i].category == Some(pk) then None
               else before[i].category)
  }

  /** The rows of `u` in category `pk` are gone, other users' rows in `pk` name no category, the rest are as they were. */
  ghost predicate RemovedFrom<F(!new)>(before: seq<Row<F>>, after: seq<Row<F>>, u: UserId, pk: nat) {
    forall y :: y in after <==>
      exists x :: x in before && !InCategory(x, u, pk) && y == (if x.category == Some(pk) then x.(category := None) else x)
  }

  lemma MoveThenDeleteIsMovedTo<F>(rows: seq<Row<F>>, u: UserId, pk: nat, target: nat)
    ensures MovedTo(rows, SetNullCategory(MoveRows(rows, u, pk, target), pk), u, pk, if target == pk then None else Some(target))
  {
  }

  lemma {:induction false} RemoveThenDeleteIsRemovedFrom<F(!new)>(rows: seq<Row<F>>, u: UserId, pk: nat)
    ensures RemovedFrom(rows, SetNullCategory(RemoveRows(rows, u, pk), pk), u, pk)
  {
    var kept := RemoveRows(rows, u, pk);
    var after := SetNullCategory(kept, pk);
    forall y
      ensures y in after <==>
        exists x :: x in rows && !InCategory(x, u, pk) && y == (if x.category == Some(pk) then x.(category := None) else x)
    {
      if y in after {
        var i :| 0 <= i < |after| && after[i] == y;
        assert kept[i] in kept;
      }
      if exists x :: x in rows && !InCategory(x, u, pk) && y == (if x.category == Some(pk) then x.(category := None) else x) {
        var x :| x in rows && !InCategory(x, u, pk) && y == (if x.category == Some(pk) then x.(category := None) else x);
        var i :| 0 <= i < |kept| && kept[i] == x;
        assert after[i] == y;
      }
    }
  }

  /** A request that reaches the disposition ensures the inbox, then disposes of the rows; the inbox touches no task or event. */
  lemma PostDisposes(t: Tables, u: UserId, c: Category, action: Option<string>, target: Option<int>)
    requires Disposable(t, u, c)
    ensures var (t1, inbox) := GetOrCreateInboxOutcome(t, u);
      && DeletePostOutcome(t, u, c.id, action, target) == Dispose(t1, u, c.id, inbox.value.id, action, target)
      && t1.tasks == t.tasks && t1.events == t.events
      && (forall k :: k in t.categories ==> k in t1.categories)
      && inbox.value in t1.categories && inbox.value.owner == u && inbox.value.isInbox
      && TablesValid(t1)
  {
    GetCategoryFinds(t.categories, c);
    InboxOutcomeIsInbox(t, u);
    GetOrCreateInboxKeepsValid(t, u);
  }

  /** GET and POST on the inbox redirect to its page and change nothing. */
  lemma InboxCannotBeDeleted(t: Tables, u: UserId, c: Category, action: Option<string>, target: Option<int>)
    requires TablesValid(t) && c in t.categories && c.owner == u && c.isInbox
    ensures DeleteGetOutcome(t, u, c.id) == (t, Redirect(CategoryDetail(c.id)))
    ensures DeletePostOutcome(t, u, c.id, action, target) == (t, Redirect(CategoryDetail(c.id)))
  {
    GetCategoryFinds(t.categories, c);
  }

  /** A key that names no category of `u`'s gives 404 and changes nothing. */
  lemma UnknownCategoryIsNotFound(t: Tables, u: UserId, pk: nat, action: Option<string>, target: Option<int>)
    requires forall c :: c in t.categories ==> !(c.id == pk && c.owner == u)
    ensures DeleteGetOutcome(t, u, pk) == (t, NotFound)
    ensures DeletePostOutcome(t, u, pk, action, target) == (t, NotFound)
  {
  }

  /**
    The GET shows the category, the user's other categories (the inbox among them,
    created if it was missing) and the inbox, and touches no task or event.
  */
  lemma DeleteGetShowsOptions(t: Tables, u: UserId, c: Category)
    requires Disposable(t, u, c)
    ensures var (t', resp) := DeleteGetOutcome(t, u, c.id);
      && resp.ShowOptions? && resp.options.category == c
      && (forall k :: k in resp.options.others <==> k in t'.categories && k.owner == u && k.id != c.id)
      && resp.options.inbox in t'.categories && resp.options.inbox.owner == u && resp.options.inbox.isInbox
      && t'.tasks == t.tasks && t'.events == t.events
  {
    GetCategoryFinds(t.categories, c);
    InboxOutcomeIsInbox(t, u);
  }

  /** `"delete_all"`: the user's tasks and events in the category are deleted, then the category. */
  lemma DeleteAllRemovesRows(t: Tables, u: UserId, c: Category, target: Option<int>)
    requires Disposable(t, u, c)
    ensures var (t', resp) := DeletePostOutcome(t, u, c.id, Some("delete_all"), target);
      && resp == Redirect(CategoryList)
      && RemovedFrom(t.tasks, t'.tasks, u, c.id)
      && RemovedFrom(t.events, t'.events, u, c.id)
      && (forall k :: k in t'.categories ==> k.id != c.id)
  {
    PostDisposes(t, u, c, Some("delete_all"), target);
    RemoveThenDeleteIsRemovedFrom(t.tasks, u, c.id);
    RemoveThenDeleteIsRemovedFrom(t.events, u, c.id);
  }

  /**
    `"move"` to a category of the user's: the tasks and events are reassigned to it, and
    the category is deleted. When the target is the category being deleted, the rows
    are left with no category at all.
  */
  lemma MoveReassignsRows(t: Tables, u: UserId, c: Category, dest: Category)
    requires Disposable(t, u, c)
    requires dest in t.categories && dest.owner == u
    ensures var (t', resp) := DeletePostOutcome(t, u, c.id, Some("move"), Some(dest.id));
      && resp == Redirect(CategoryList)
      && MovedTo(t.tasks, t'.tasks, u, c.id, if dest.id == c.id then None else Some(dest.id))
      && MovedTo(t.events, t'.events, u, c.id, if dest.id == c.id then None else Some(dest.id))
      && (forall k :: k in t'.categories ==> k.id != c.id)
  {
    PostDisposes(t, u, c, Some("move"), Some(dest.id));
    var t1 := GetOrCreateInboxOutcome(t, u).0;
    GetCategoryFinds(t1.categories, dest);
    MoveThenDeleteIsMovedTo(t.tasks, u, c.id, dest.id);
    MoveThenDeleteIsMovedTo(t.events, u, c.id, dest.id);
  }

  /** Moving into the category being deleted leaves the user's rows there with no category. */
  lemma MoveToItselfNullsRows(t: Tables, u: UserId, c: Category)
    requires Disposable(t, u, c)
    ensures var (t', resp) := DeletePostOutcome(t, u, c.id, Some("move"), Some(c.id));
      && resp == Redirect(CategoryList)
      && MovedTo(t.tasks, t'.tasks, u, c.id, None)
      && MovedTo(t.events, t'.events, u, c.id, None)
  {
    MoveReassignsRows(t, u, c, c);
  }

  /** `"move"` with a missing target, or one that is not the user's, is a 404 after the inbox is ensured: nothing is moved or deleted. */
  lemma BadTargetMovesNothing(t: Tables, u: UserId, c: Category, target: Option<int>)
    requires Disposable(t, u, c)
    requires target.None? || GetCategory(GetOrCreateInboxOutcome(t, u).0.categories, target.value, u).None?
    ensures var (t', resp) := DeletePostOutcome(t, u, c.id, Some("move"), target);
      && resp == NotFound
      && t'.tasks == t.tasks && t'.events == t.events
      && (forall k :: k in t.categories ==> k in t'.categories)
  {
    PostDisposes(t, u, c, Some("move"), target);
  }

  /** Any other action, or none, moves the tasks and events to the user's inbox, which exists afterwards. */
  lemma OtherActionMovesToInbox(t: Tables, u: UserId, c: Category, action: Option<string>, target: Option<int>)
    requires Disposable(t, u, c)
    requires action != Some("delete_all") && action != Some("move")
    ensures var (t', resp) := DeletePostOutcome(t, u, c.id, action, target);
      && resp == Redirect(CategoryList)
      && exists inbox :: inbox in t'.categories && inbox.owner == u && inbox.isInbox
           && MovedTo(t.tasks, t'.tasks, u, c.id, Some(inbox.id))
           && MovedTo(t.events, t'.events, u, c.id, Some(inbox.id))
  {
    PostDisposes(t, u, c, action, target);
    var inbox := GetOrCreateInboxOutcome(t, u).1.value;
    MoveThenDeleteIsMovedTo(t.tasks, u, c.id, inbox.id);
    MoveThenDeleteIsMovedTo(t.events, u, c.id, inbox.id);
    var t' := DeletePostOutcome(t, u, c.id, action, target).0;
    assert inbox in t'.categories;
  }

  /** After a delete that goes through, the category is gone and every other category is still there. */
  lemma DeletedCategoryIsGone(t: Tables, u: UserId, pk: nat, inboxId: nat, action: Option<string>, target: Option<int>)
    requires Dispose(t, u, pk, inboxId, action, target).1 == Redirect(CategoryList)
    ensures var t' := Dispose(t, u, pk, inboxId, action, target).0;
      && (forall k :: k in t'.categories ==> k.id != pk)
      && (forall k :: k in t.categories && k.id != pk ==> k in t'.categories)
  {
  }

  /** Every request on the delete view keeps the database constraints. */
  lemma DeletePostKeepsValid(t: Tables, u: UserId, pk: nat, action: Option<string>, target: Option<int>)
    requires TablesValid(t)
    ensures TablesValid(DeletePostOutcome(t, u, pk, action, target).0)
  {
    match GetCategory(t.categories, pk, u)
    case None =>
    case Some(c) =>
      if !c.isInbox {
        var (t1, inbox) := GetOrCreateInboxOutcome(t, u);
        GetOrCreateInboxKeepsValid(t, u);
        if inbox.Ok? {
          InboxOutcomeIsInbox(t, u);
          assert inbox.value.id in CategoryIds(t1.categories);
          DisposeKeepsValid(t1, u, c.id, inbox.value.id, action, target);
        }
      }
  }

  /** Each way of disposing of the rows keeps the tables valid, once the inbox is a stored category. */
  lemma DisposeKeepsValid(t: Tables, u: UserId, pk: nat, inboxId: nat, action: Option<string>, target: Option<int>)
    requires TablesValid(t) && inboxId in CategoryIds(t.categories)
    ensures TablesValid(Dispose(t, u, pk, inboxId, action, target).0)
  {
    if action == Some("delete_all") {
      RemoveCategoryRowsKeepsValid(t, u, pk);
      DeleteCategoryKeepsValid(RemoveCategoryRowsOutcome(t, u, pk), pk);
    } else if action == Some("move") {
      var dest := if target.Some? then GetCategory(t.categories, target.value, u) else None;
      if dest.Some? {
        assert dest.value.id in CategoryIds(t.categories);
        MoveCategoryRowsKeepsValid(t, u, pk, dest.value.id);
        DeleteCategoryKeepsValid(MoveCategoryRowsOutcome(t, u, pk, dest.value.id), pk);
      }
    } else {
      MoveCategoryRowsKeepsValid(t, u, pk, inboxId);
      DeleteCategoryKeepsValid(MoveCategoryRowsOutcome(t, u, pk, inboxId), pk);
    }
  }

  // ------------------------------------------------ create with fallback

  /** The saved row's answer: back to the list, or a server error when the database refuses it. */
  function Saved<R>(outcome: (Tables, Result<R, DbError>), next: Page): (r: (Tables, Response))
    ensures r.0 == outcome.0
    ensures r.1 == Redirect(next) <==> outcome.1.Ok?
  {
    if outcome.1.Ok? then (outcome.0, Redirect(next)) else (outcome.0, ServerError(outcome.1.error))
  }

  /** `TaskCreateView.form_valid`: the task is the user's, and without a category it goes to the inbox. */
  function TaskCreateOutcome(t: Tables, u: UserId, category: Option<nat>, fields: TaskFields): (Tables, Response)
  {
    if category.Some? then Saved(SaveTaskOutcome(t, u, category, fields), TaskList)
    else
      var (t1, inbox) := GetOrCreateInboxOutcome(t, u);
      if inbox.Err? then (t1, ServerError(inbox.error))
      else Saved(SaveTaskOutcome(t1, u, Some(inbox.value.id), fields), TaskList)
  }

  /** `EventCreateView.form_valid`: the same fallback for events. */
  function EventCreateOutcome(t: Tables, u: UserId, category: Option<nat>, fields: EventFields): (Tables, Response)
  {
    if category.Some? then Saved(SaveEventOutcome(t, u, category, fields), EventList)
    else
      var (t1, inbox) := GetOrCreateInboxOutcome(t, u);
      if inbox.Err? then (t1, ServerError(inbox.error))
      else Saved(SaveEventOutcome(t1, u, Some(inbox.value.id), fields), EventList)
  }

  method TaskCreate(db: Db, u: UserId, category: Option<nat>, fields: TaskFields) returns (resp: Response)
    requires db.Valid()
    modifies db
    ensures db.Valid()
    ensures (db.Snapshot(), resp) == TaskCreateOutcome(old(db.Snapshot()), u, category, fields)
  {
    var chosen := category;
    if chosen.None? {
      var inbox := db.GetOrCreateInbox(u);
      if inbox.Err? {
        return ServerError(inbox.error);
      }
      chosen := Some(inbox.value.id);
    }
    var saved := db.SaveTask(u, chosen, fields);
    resp := if saved.Ok? then Redirect(TaskList) else ServerError(saved.error);
  }

  method EventCreate(db: Db, u: UserId, category: Option<nat>, fields: EventFields) returns (resp: Response)
    requires db.Valid()
    modifies db
    ensures db.Valid()
    ensures (db.Snapshot(), resp) == EventCreateOutcome(old(db.Snapshot()), u, category, fields)
  {
    var chosen := category;
    if chosen.None? {
      var inbox := db.GetOrCreateInbox(u);
      if inbox.Err? {
        return ServerError(inbox.error);
      }
      chosen := Some(inbox.value.id);
    }
    var saved := db.SaveEvent(u, chosen, fields);
    resp := if saved.Ok? then Redirect(EventList) else ServerError(saved.error);
  }

  /** A task created without a category is saved as the user's, in the user's inbox, with the fields as given. */
  lemma TaskWithoutCategoryGoesToInbox(t: Tables, u: UserId, fields: TaskFields)
    requires TablesValid(t)
    requires TaskCreateOutcome(t, u, None, fields).1 == Redirect(TaskList)
    ensures var t' := TaskCreateOutcome(t, u, None, fields).0;
      && |t'.tasks| == |t.tasks| + 1 && t'.tasks[..|t.tasks|] == t.tasks
      && var x := t'.tasks[|t.tasks|];
         && x.owner == u && x.fields == fields
         && exists inbox :: inbox in t'.categories && inbox.owner == u && inbox.isInbox && x.category == Some(inbox.id)
  {
    InboxOutcomeIsInbox(t, u);
    var (t1, inbox) := GetOrCreateInboxOutcome(t, u);
    assert inbox.value.id in CategoryIds(t1.categories);
  }

  /** An event created without a category is saved as the user's, in the user's inbox, with the fields as given. */
  lemma EventWithoutCategoryGoesToInbox(t: Tables, u: UserId, fields: EventFields)
    requires TablesValid(t)
    requires EventCreateOutcome(t, u, None, fields).1 == Redirect(EventList)
    ensures var t' := EventCreateOutcome(t, u, None, fields).0;
      && |t'.events| == |t.events| + 1 && t'.events[..|t.events|] == t.events
      && var x := t'.events[|t.events|];
         && x.owner == u && x.fields == fields
         && exists inbox :: inbox in t'.categories && inbox.owner == u && inbox.isInbox && x.category == Some(inbox.id)
  {
    InboxOutcomeIsInbox(t, u);
    var (t1, inbox) := GetOrCreateInboxOutcome(t, u);
    assert inbox.value.id in CategoryIds(t1.categories);
  }

  /** In `form_valid`, a task created in one of the user's categories keeps that category, and no inbox is looked up. */
  lemma TaskWithCategoryKeepsIt(t: Tables, u: UserId, c: Category, fields: TaskFields)
    requires c in t.categories
    ensures var (t', resp) := TaskCreateOutcome(t, u, Some(c.id), fields);
      && resp == Redirect(TaskList)
      && t'.categories == t.categories
      && t'.tasks == t.tasks + [Row(t.nextId, u, Some(c.id), fields)]
  {
    assert c.id in CategoryIds(t.categories);
  }

  // ------------------------------------------------ the whole create request

  /**
    A task create request as the view runs it: building the form (`TaskForm.__init__` with
    the user, for a new instance) gets or creates the inbox to preselect it, and then
    `form_valid` runs. `TaskForm` adds no rule of its own; its field parsing is not
    modelled, and the cleaned fields are inputs. A database error while building the form
    is a server error.
  */
  function TaskCreateRequestOutcome(t: Tables, u: UserId, category: Option<nat>, fields: TaskFields): (Tables, Response)
  {
    var (t1, inbox) := GetOrCreateInboxOutcome(t, u);
    if inbox.Err? then (t1, ServerError(inbox.error))
    else TaskCreateOutcome(t1, u, category, fields)
  }

  /**
    An event create request: `EventForm.__init__` gets or creates the inbox first, in the
    same way; then `EventForm.clean` checks the end against the start, and an invalid form
    is shown again without reaching `form_valid`.
  */
  function EventCreateRequestOutcome(t: Tables, u: UserId, category: Option<nat>, fields: EventFields): (Tables, Response)
  {
    var (t1, inbox) := GetOrCreateInboxOutcome(t, u);
    var endError := EventEndError(Some(fields.start), fields.end);
    if inbox.Err? then (t1, ServerError(inbox.error))
    else if endError.Some? then (t1, FormInvalid(endError.value))
    else EventCreateOutcome(t1, u, category, fields)
  }

  method TaskCreateRequest(db: Db, u: UserId, category: Option<nat>, fields: TaskFields) returns (resp: Response)
    requires db.Valid()
    modifies db
    ensures db.Valid()
    ensures (db.Snapshot(), resp) == TaskCreateRequestOutcome(old(db.Snapshot()), u, category, fields)
  {
    var inbox := db.GetOrCreateInbox(u);
    if inbox.Err? {
      return ServerError(inbox.error);
    }
    resp := TaskCreate(db, u, category, fields);
  }

  method EventCreateRequest(db: Db, u: UserId, category: Option<nat>, fields: EventFields) returns (resp: Response)
    requires db.Valid()
    modifies db
    ensures db.Valid()
    ensures (db.Snapshot(), resp) == EventCreateRequestOutcome(old(db.Snapshot()), u, category, fields)
  {
    var inbox := db.GetOrCreateInbox(u);
    if inbox.Err? {
      return ServerError(inbox.error);
    }
    var endError := EventEndError(Some(fields.start), fields.end);
    if endError.Some? {
      return FormInvalid(endError.value);
    }
    resp := EventCreate(db, u, category, fields);
  }

  /**
    When the inbox can be neither found nor created (several inboxes, or a non-inbox category
    named "Inbox"), the request fails while the form is built, and nothing is stored, even
    when a category was chosen.
  */
  lemma TaskRequestInboxErrorStoresNothing(t: Tables, u: UserId, category: Option<nat>, fields: TaskFields)
    requires GetOrCreateInboxOutcome(t, u).1.Err?
    ensures TaskCreateRequestOutcome(t, u, category, fields) == (t, ServerError(GetOrCreateInboxOutcome(t, u).1.error))
  {
    InboxOutcomeErrors(t, u);
  }

  /** The same failure for an event create request. */
  lemma EventRequestInboxErrorStoresNothing(t: Tables, u: UserId, category: Option<nat>, fields: EventFields)
    requires GetOrCreateInboxOutcome(t, u).1.Err?
    ensures EventCreateRequestOutcome(t, u, category, fields) == (t, ServerError(GetOrCreateInboxOutcome(t, u).1.error))
  {
    InboxOutcomeErrors(t, u);
  }

  /**
    Without a category, the task goes to the inbox that building the form found or created:
    the fallback in `form_valid` finds that same inbox and writes no second one.
  */
  lemma TaskRequestWithoutCategoryUsesFormInbox(t: Tables, u: UserId, fields: TaskFields)
    requires GetOrCreateInboxOutcome(t, u).1.Ok?
    ensures var (t1, inbox) := GetOrCreateInboxOutcome(t, u);
      TaskCreateRequestOutcome(t, u, None, fields)
      == (t1.(tasks := t1.tasks + [Row(t1.nextId, u, Some(inbox.value.id), fields)], nextId := t1.nextId + 1),
          Redirect(TaskList))
  {
    InboxIdempotent(t, u);
    InboxOutcomeIsInbox(t, u);
    var (t1, inbox) := GetOrCreateInboxOutcome(t, u);
    assert inbox.value.id in CategoryIds(t1.categories);
  }

  /**
    An event whose end is given and not after its start is refused by the form with its
    message, and no event is stored; only the inbox the form got or created may be new.
  */
  lemma EventRequestEndNotAfterStartStoresNoEvent(t: Tables, u: UserId, category: Option<nat>, fields: EventFields)
    requires fields.end.Some? && !Before(fields.start, fields.end.value)
    ensures var (t', resp) := EventCreateRequestOutcome(t, u, category, fields);
      && t' == GetOrCreateInboxOutcome(t, u).0
      && t'.events == t.events && t'.tasks == t.tasks
      && (GetOrCreateInboxOutcome(t, u).1.Ok? ==> resp == FormInvalid(EndBeforeStartMessage))
  {
    InboxOutcomeErrors(t, u);
  }

  /** Without a category, a valid event goes to the inbox that building the form found or created. */
  lemma EventRequestWithoutCategoryUsesFormInbox(t: Tables, u: UserId, fields: EventFields)
    requires GetOrCreateInboxOutcome(t, u).1.Ok?
    requires EventEndError(Some(fields.start), fields.end).None?
    ensures var (t1, inbox) := GetOrCreateInboxOutcome(t, u);
      EventCreateRequestOutcome(t, u, None, fields)
      == (t1.(events := t1.events + [Row(t1.nextId, u, Some(inbox.value.id), fields)], nextId := t1.nextId + 1),
          Redirect(EventList))
  {
    InboxIdempotent(t, u);
    InboxOutcomeIsInbox(t, u);
    var (t1, inbox) := GetOrCreateInboxOutcome(t, u);
    assert inbox.value.id in CategoryIds(t1.categories);
  }

  /**
    With a chosen category the task keeps it, yet building the form has still made sure the
    user has an inbox: a user without one gets it on this request.
  */
  lemma TaskRequestWithCategoryStillEnsuresInbox(t: Tables, u: UserId, c: Category, fields: TaskFields)
    requires c in t.categories
    requires GetOrCreateInboxOutcome(t, u).1.Ok?
    ensures var (t', resp) := TaskCreateRequestOutcome(t, u, Some(c.id), fields);
      && resp == Redirect(TaskList)
      && HasInbox(t'.categories, u)
      && t'.categories == GetOrCreateInboxOutcome(t, u).0.categories
      && t'.tasks[|t'.tasks| - 1] == Row(GetOrCreateInboxOutcome(t, u).0.nextId, u, Some(c.id), fields)
  {
    InboxOutcomeIsInbox(t, u);
    var (t1, inbox) := GetOrCreateInboxOutcome(t, u);
    assert c in t1.categories;
    TaskWithCategoryKeepsIt(t1, u, c, fields);
  }

  // ------------------------------------------------------------ task list

  /** `created_at` descending: no task is followed by a later one. */
  predicate NewestFirst(s: seq<Task>) {
    forall i, j :: 0 <= i < j < |s| ==> !Before(s[i].fields.createdAt, s[j].fields.createdAt)
  }

  /** No task of `s` is later than `d`. */
  predicate NoneLater(d: DateTime, s: seq<Task>) {
    forall y :: y in s ==> !Before(d, y.fields.createdAt)
  }

  lemma ConsNewestFirst(x: Task, s: seq<Task>)
    requires NoneLater(x.fields.createdAt, s) && NewestFirst(s)
    ensures NewestFirst([x] + s)
  {
    var r := [x] + s;
    forall i, j | 0 <= i < j < |r|
      ensures !Before(r[i].fields.createdAt, r[j].fields.createdAt)
    {
      if i == 0 {
        assert r[j] == s[j - 1];
      } else {
        assert r[i] == s[i - 1] && r[j] == s[j - 1];
      }
    }
  }

  lemma HeadNoneLater(s: seq<Task>)
    requires |s| > 0 && NewestFirst(s)
    ensures NoneLater(s[0].fields.createdAt, s[1..])
  {
    forall y | y in s[1..] ensures !Before(s[0].fields.createdAt, y.fields.createdAt) {
      var k :| 0 <= k < |s[1..]| && s[1..][k] == y;
      assert s[k + 1] == y;
    }
  }

  /** Anything not after the head of a newest-first list is not after any of it. */
  lemma NoneLaterThanHead(d: DateTime, s: seq<Task>)
    requires |s| > 0 && NewestFirst(s) && !Before(d, s[0].fields.createdAt)
    ensures NoneLater(d, s)
  {
    HeadNoneLater(s);
    forall y | y in s ensures !Before(d, y.fields.createdAt) {
      if y != s[0] {
        BeforeIsStrictTotalOrder(d, s[0].fields.createdAt, y.fields.createdAt);
        BeforeIsStrictTotalOrder(s[0].fields.createdAt, y.fields.createdAt, d);
      }
    }
  }

  lemma NoneLaterOfInsert(d: DateTime, x: Task, s: seq<Task>, r: seq<Task>)
    requires NoneLater(d, s) && !Before(d, x.fields.createdAt)
    requires multiset(r) == multiset(s) + multiset{x}
    ensures NoneLater(d, r)
  {
    forall y | y in r ensures !Before(d, y.fields.createdAt) {
      assert y in multiset(r);
      assert y == x || y in multiset(s);
    }
  }

  /** Puts `x` in front of the first task that is not later than it. */
  function InsertByCreated(x: Task, s: seq<Task>): (r: seq<Task>)
    requires NewestFirst(s)
    ensures multiset(r) == multiset(s) + multiset{x}
    ensures NewestFirst(r)
  {
    if |s| == 0 then [x]
    else if !Before(x.fields.createdAt, s[0].fields.createdAt) then
      NoneLaterThanHead(x.fields.createdAt, s);
      ConsNewestFirst(x, s);
      [x] + s
    else
      var rest := InsertByCreated(x, s[1..]);
      assert s == [s[0]] + s[1..];
      HeadNoneLater(s);
      BeforeIsStrictTotalOrder(x.fields.createdAt, s[0].fields.createdAt, x.fields.createdAt);
      NoneLaterOfInsert(s[0].fields.createdAt, x, s[1..], rest);
      ConsNewestFirst(s[0], rest);
      [s[0]] + rest
  }

  /** `order_by("-created_at")`. */
  function SortNewestFirst(s: seq<Task>): (r: seq<Task>)
    ensures multiset(r) == multiset(s)
    ensures NewestFirst(r)
  {
    if |s| == 0 then []
    else
      assert s == [s[0]] + s[1..];
      InsertByCreated(s[0], SortNewestFirst(s[1..]))
  }

  /** The list's filters, on the stripped `q` and `status`: the owner, the search text in title or description, the status. */
  predicate TaskMatches(x: Task, u: UserId, q: string, status: string) {
    && x.owner == u
    && (q == "" || ContainsIgnoreCase(x.fields.title, q) || ContainsIgnoreCase(x.fields.description, q))
    && (status == "" || StatusCode(x.fields.status) == status)
  }

  /** `TaskListView.get_queryset`: one query with the filters and the order. */
  function TaskListQuery(tasks: seq<Task>, u: UserId, q: string, status: string): (r: seq<Task>)
  {
    SortNewestFirst(Filter(tasks, (x: Task) => TaskMatches(x, u, Strip(q), Strip(status))))
  }

  /**
    The list holds exactly the user's tasks that match the stripped search text and
    status, each as often as it is stored, newest first.
  */
  lemma TaskListContents(tasks: seq<Task>, u: UserId, q: string, status: string)
    ensures var r := TaskListQuery(tasks, u, q, status);
      && (forall x :: x in r <==> x in tasks && TaskMatches(x, u, Strip(q), Strip(status)))
      && multiset(r) == multiset(Filter(tasks, (x: Task) => TaskMatches(x, u, Strip(q), Strip(status))))
      && NewestFirst(r)
  {
    var kept := Filter(tasks, (x: Task) => TaskMatches(x, u, Strip(q), Strip(status)));
    var r := TaskListQuery(tasks, u, q, status);
    forall x
      ensures x in r <==> x in tasks && TaskMatches(x, u, Strip(q), Strip(status))
    {
      assert x in r <==> x in multiset(r);
      assert x in kept <==> x in multiset(kept);
    }
  }

  /** Blank search text and status filter on the owner alone. */
  lemma BlankFiltersListAllOwnTasks(tasks: seq<Task>, u: UserId, q: string, status: string)
    requires Strip(q) == "" && Strip(status) == ""
    ensures forall x :: x in TaskListQuery(tasks, u, q, status) <==> x in tasks && x.owner == u
  {
    TaskListContents(tasks, u, q, status);
  }
}
