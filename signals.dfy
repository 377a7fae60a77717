/**
  The user model's post-save hook: a user who has just been created gets an
  inbox category, through the same get-or-create the views use.
*/
module Signals {
  import opened Wrappers
  import opened Collections
  import opened Models

  /** `u` owns a category marked as the inbox. */
  predicate HasInbox(cs: seq<Category>, u: UserId) {
    exists c :: c in cs && c.owner == u && c.isInbox
  }

  /** The inbox the get-or-create returns is a category of `u`'s, marked as the inbox, and now stored. */
  lemma InboxOutcomeIsInbox(t: Tables, u: UserId)
    ensures var (t', r) := GetOrCreateInboxOutcome(t, u);
      r.Ok? ==> r.value in t'.categories && r.value.owner == u && r.value.isInbox && HasInbox(t'.categories, u)
  {
    var found := InboxesOf(t.categories, u);
    if |found| == 1 {
      assert found[0] in found;
    }
  }

  /** The get-or-create fails only when `u` owns several inboxes, or none while the name "Inbox" is taken. */
  lemma InboxOutcomeErrors(t: Tables, u: UserId)
    ensures var (t', r) := GetOrCreateInboxOutcome(t, u);
      && (r == Err(MultipleObjectsReturned) <==> |InboxesOf(t.categories, u)| > 1)
      && (r == Err(IntegrityError) <==> |InboxesOf(t.categories, u)| == 0 && NameTaken(t.categories, u, InboxName))
      && (r.Err? ==> t' == t)
  {
  }

  /** When `u` already owns an inbox, the category table (and every other table) is left as it is. */
  lemma ExistingInboxIsKept(t: Tables, u: UserId, c: Category)
    requires c in t.categories && c.owner == u && c.isInbox
    ensures GetOrCreateInboxOutcome(t, u).0 == t
  {
    assert c in InboxesOf(t.categories, u);
  }

  /** Whatever the inbox query finds is an inbox of `u`'s. */
  lemma FoundInboxIsInbox(cs: seq<Category>, u: UserId)
    ensures |InboxesOf(cs, u)| > 0 ==> HasInbox(cs, u)
  {
    var found := InboxesOf(cs, u);
    if |found| > 0 {
      assert found[0] in found;
    }
  }

  /** A new inbox is `u`'s, named "Inbox", marked as the inbox, and takes the next free key. */
  lemma NewInboxShape(t: Tables, u: UserId)
    requires !HasInbox(t.categories, u) && !NameTaken(t.categories, u, InboxName)
    ensures var (t', r) := GetOrCreateInboxOutcome(t, u);
      && r == Ok(Category(t.nextId, "Inbox", u, true))
      && t' == t.(categories := t.categories + [r.value], nextId := t.nextId + 1)
  {
    FoundInboxIsInbox(t.categories, u);
  }

  /** A category of `u`'s named "Inbox" that is not the inbox makes the insert break the (owner, name) constraint. */
  lemma InboxNameTakenFails(t: Tables, u: UserId, c: Category)
    requires c in t.categories && c.owner == u && c.name == "Inbox"
    requires !HasInbox(t.categories, u)
    ensures GetOrCreateInboxOutcome(t, u) == (t, Err(IntegrityError))
  {
    FoundInboxIsInbox(t.categories, u);
    assert NameTaken(t.categories, u, InboxName);
  }

  /** Calling the get-or-create a second time changes nothing more and returns the same answer. */
  lemma {:induction false} InboxIdempotent(t: Tables, u: UserId)
    ensures var (t', r) := GetOrCreateInboxOutcome(t, u);
      GetOrCreateInboxOutcome(t', u) == (t', r)
  {
    var found := InboxesOf(t.categories, u);
    if |found| == 0 && !NameTaken(t.categories, u, InboxName) {
      var inbox := Category(t.nextId, InboxName, u, true);
      var keep := (c: Category) => c.owner == u && c.isInbox;
      FilterAppend(t.categories, inbox, keep);
      assert InboxesOf(t.categories + [inbox], u) == [] + [inbox];
    }
  }

  /** `ensure_inbox_for_user(u)`: the get-or-create, with its result dropped and its failure kept. */
  method EnsureInboxForUser(db: Db, u: UserId) returns (error: Option<DbError>)
    requires db.Valid()
    modifies db
    ensures db.Valid()
    ensures db.Snapshot() == GetOrCreateInboxOutcome(old(db.Snapshot()), u).0
    ensures error.None? <==> GetOrCreateInboxOutcome(old(db.Snapshot()), u).1.Ok?
    ensures error.Some? ==> error.value == GetOrCreateInboxOutcome(old(db.Snapshot()), u).1.error
  {
    var r := db.GetOrCreateInbox(u);
    error := if r.Ok? then None else Some(r.error);
  }

  /** `create_inbox_category`: only the save that created the user row ensures an inbox. */
  method CreateInboxCategory(db: Db, u: UserId, created: bool) returns (error: Option<DbError>)
    requires db.Valid()
    modifies db
    ensures db.Valid()
    ensures !created ==> db.Snapshot() == old(db.Snapshot()) && error.None?
    ensures created ==> db.Snapshot() == GetOrCreateInboxOutcome(old(db.Snapshot()), u).0
    ensures created ==> (error.None? <==> GetOrCreateInboxOutcome(old(db.Snapshot()), u).1.Ok?)
  {
    error := None;
    if created {
      error := EnsureInboxForUser(db, u);
    }
  }

  /** After a successful call `u` owns an inbox, and a second call would leave the tables as they are. */
  lemma EnsureInboxEstablishes(t: Tables, u: UserId)
    requires GetOrCreateInboxOutcome(t, u).1.Ok?
    ensures HasInbox(GetOrCreateInboxOutcome(t, u).0.categories, u)
    ensures GetOrCreateInboxOutcome(GetOrCreateInboxOutcome(t, u).0, u).0 == GetOrCreateInboxOutcome(t, u).0
  {
    InboxOutcomeIsInbox(t, u);
    InboxIdempotent(t, u);
  }
}
