/**
 * The flat-file record store: three collections (users, notes, categories),
 * each read as a list, changed and written back. The model keeps the three
 * lists in one `Db` value. Each writing operation returns the new `Db`
 * together with what the TypeScript call resolves to; lookups return the
 * value alone. Ids, the clock and the password hash are supplied by the
 * caller.
 */
module FileDb {
  import opened Common
  import opened Seqs
  import Text
  import Sorting

  const DuplicateEmailMessage := "User with this email already exists"
  const DuplicateCategoryMessage := "Category with this name already exists"

  datatype User = User(
    id: string,
    email: string,
    password: string,
    fullName: Option<string>,
    avatarUrl: Option<string>,
    createdAt: int,
    updatedAt: int)

  /** The fields a caller supplies to `userDb.create`. */
  datatype NewUser = NewUser(
    email: string,
    password: string,
    fullName: Option<string>,
    avatarUrl: Option<string>)

  datatype Note = Note(
    id: string,
    title: string,
    content: string,
    userId: string,
    categoryId: Option<string>,
    tags: seq<string>,
    isFavorite: bool,
    createdAt: int,
    updatedAt: int)

  /** The fields a caller supplies to `noteDb.create`. */
  datatype NewNote = NewNote(
    title: string,
    content: string,
    userId: string,
    categoryId: Option<string>,
    tags: seq<string>,
    isFavorite: bool)

  /**
   * A `Partial<Note>` passed to `noteDb.update`: `Some(v)` marks a key
   * present with value `v`. A present `categoryId` may carry `undefined`,
   * hence the nested option. An `updatedAt` key is not represented because
   * the update always overwrites it with the current time.
   */
  datatype NotePatch = NotePatch(
    id: Option<string>,
    title: Option<string>,
    content: Option<string>,
    userId: Option<string>,
    categoryId: Option<Option<string>>,
    tags: Option<seq<string>>,
    isFavorite: Option<bool>,
    createdAt: Option<int>)

  datatype Category = Category(
    id: string,
    name: string,
    color: string,
    userId: string,
    createdAt: int,
    updatedAt: int)

  /** The fields a caller supplies to `categoryDb.create`. */
  datatype NewCategory = NewCategory(name: string, color: string, userId: string)

  /** The contents of the three collection files. */
  datatype Db = Db(users: seq<User>, notes: seq<Note>, categories: seq<Category>)

  /** The store after an operation, and the value the operation resolves to. */
  datatype Step<T> = Step(db: Db, value: T)

  // ---------------------------------------------------------------- users

  function HasEmail(email: string): User -> bool {
    (u: User) => u.email == email
  }

  function HasUserId(id: string): User -> bool {
    (u: User) => u.id == id
  }

  /** `userDb.findByEmail`: the first user with exactly this email. */
  function FindUserByEmail(db: Db, email: string): (r: Option<User>)
    ensures r.Some? ==> r.value.email == email
    ensures r.Some? ==> exists i ::
      0 <= i < |db.users| && db.users[i] == r.value && forall j :: 0 <= j < i ==> db.users[j].email != email
    ensures r.None? <==> forall i :: 0 <= i < |db.users| ==> db.users[i].email != email
  {
    Find(db.users, HasEmail(email))
  }

  /** `userDb.findById`: the first user with this id. */
  function FindUserById(db: Db, id: string): (r: Option<User>)
    ensures r.Some? ==> r.value.id == id
    ensures r.Some? ==> exists i ::
      0 <= i < |db.users| && db.users[i] == r.value && forall j :: 0 <= j < i ==> db.users[j].id != id
    ensures r.None? <==> forall i :: 0 <= i < |db.users| ==> db.users[i].id != id
  {
    Find(db.users, HasUserId(id))
  }

  /**
   * `userDb.create`: refuses an email already stored (exact comparison);
   * otherwise appends one user whose stored password is `hash` of the
   * supplied one.
   */
  function CreateUser(db: Db, data: NewUser, id: string, now: int, hash: string -> string): (r: Step<Result<User>>)
    ensures r.value.Err? <==> exists i :: 0 <= i < |db.users| && db.users[i].email == data.email
    ensures r.value.Err? ==> r.db == db && r.value.message == DuplicateEmailMessage
    ensures r.value.Ok? ==> r.db == db.(users := db.users + [r.value.value])
    ensures r.value.Ok? ==>
      var u := r.value.value;
      && u.id == id && u.email == data.email
      && u.password == hash(data.password)
      && u.fullName == data.fullName && u.avatarUrl == data.avatarUrl
      && u.createdAt == now && u.updatedAt == now
  {
    if FindUserByEmail(db, data.email).Some? then
      Step(db, Err(DuplicateEmailMessage))
    else
      var user := User(id, data.email, hash(data.password), data.fullName, data.avatarUrl, now, now);
      Step(db.(users := db.users + [user]), Ok(user))
  }

  ghost predicate UniqueEmails(db: Db) {
    forall i, j :: 0 <= i < j < |db.users| ==> db.users[i].email != db.users[j].email
  }

  /** Email uniqueness is an invariant of user creation. */
  lemma CreateUserKeepsEmailsUnique(db: Db, data: NewUser, id: string, now: int, hash: string -> string)
    requires UniqueEmails(db)
    ensures UniqueEmails(CreateUser(db, data, id, now, hash).db)
  {
  }

  /** A created user is what a later lookup by its email finds. */
  lemma {:induction false} CreatedUserFoundByEmail(db: Db, data: NewUser, id: string, now: int, hash: string -> string)
    requires CreateUser(db, data, id, now, hash).value.Ok?
    ensures var r := CreateUser(db, data, id, now, hash);
      FindUserByEmail(r.db, data.email) == Some(r.value.value)
  {
    var r := CreateUser(db, data, id, now, hash);
    var users := r.db.users;
    var found := FindUserByEmail(r.db, data.email);
    assert users[|db.users|] == r.value.value;
    assert found.Some?;
    var i :| 0 <= i < |users| && users[i] == found.value
      && forall j :: 0 <= j < i ==> !HasEmail(data.email)(users[j]);
    assert i == |db.users|;
  }

  /** Registering the same email twice fails the second time and stores nothing. */
  lemma SecondCreateWithSameEmailFails(db: Db, first: NewUser, second: NewUser, id1: string, id2: string,
                                       now1: int, now2: int, hash: string -> string)
    requires CreateUser(db, first, id1, now1, hash).value.Ok?
    requires second.email == first.email
    ensures var db1 := CreateUser(db, first, id1, now1, hash).db;
      CreateUser(db1, second, id2, now2, hash) == Step(db1, Err(DuplicateEmailMessage))
  {
    var db1 := CreateUser(db, first, id1, now1, hash).db;
    assert db1.users[|db.users|].email == second.email;
  }

  // ---------------------------------------------------------------- notes

  function UpdatedAt(n: Note): int {
    n.updatedAt
  }

  function OwnedBy(userId: string): Note -> bool {
    (n: Note) => n.userId == userId
  }

  function IsFavorite(): Note -> bool {
    (n: Note) => n.isFavorite
  }

  /** The search test: the lowered query occurs in the lowered title or content. */
  predicate MatchesSearch(n: Note, search: string) {
    var q := Text.Lower(search);
    Text.Includes(Text.Lower(n.title), q) || Text.Includes(Text.Lower(n.content), q)
  }

  /** The search test in positional terms: the lowered query occurs in the lowered title or content. */
  lemma MatchesSearchIffOccurs(n: Note, search: string)
    ensures MatchesSearch(n, search) <==> (
      (exists i :: Text.OccursAt(Text.Lower(n.title), Text.Lower(search), i)) ||
      (exists i :: Text.OccursAt(Text.Lower(n.content), Text.Lower(search), i)))
  {
    var t, c, q := Text.Lower(n.title), Text.Lower(n.content), Text.Lower(search);
    Text.IncludesIffOccurs(t, q);
    Text.IncludesIffOccurs(c, q);
    if Text.Includes(t, q) {
      var i :| Text.OccursAt(t, q, i);
      assert exists k :: Text.OccursAt(Text.Lower(n.title), Text.Lower(search), k);
    } else if Text.Includes(c, q) {
      var i :| Text.OccursAt(c, q, i);
      assert exists k :: Text.OccursAt(Text.Lower(n.content), Text.Lower(search), k);
    }
  }

  function Mentions(search: string): Note -> bool {
    (n: Note) => MatchesSearch(n, search)
  }

  /** Everything `findByUserId` asks of a note, as one condition. */
  predicate Accepts(n: Note, userId: string, search: Option<string>, favorites: bool) {
    && n.userId == userId
    && (favorites ==> n.isFavorite)
    && (Present(search) ==> MatchesSearch(n, search.value))
  }

  function Accepted(userId: string, search: Option<string>, favorites: bool): Note -> bool {
    (n: Note) => Accepts(n, userId, search, favorites)
  }

  /** `noteDb.create`: appends a note with a fresh id and both timestamps set to now. */
  function CreateNote(db: Db, data: NewNote, id: string, now: int): (r: Step<Note>)
    ensures r.db == db.(notes := db.notes + [r.value])
    ensures r.value.id == id && r.value.userId == data.userId
    ensures r.value.title == data.title && r.value.content == data.content
    ensures r.value.categoryId == data.categoryId && r.value.tags == data.tags
    ensures r.value.isFavorite == data.isFavorite
    ensures r.value.createdAt == now && r.value.updatedAt == now
  {
    var note := Note(id, data.title, data.content, data.userId, data.categoryId,
                     data.tags, data.isFavorite, now, now);
    Step(db.(notes := db.notes + [note]), note)
  }

  /**
   * The three filters of `noteDb.findByUserId` applied in turn: the owner's
   * notes, then favourites when `favorites` holds, then search hits when
   * `search` is non-empty. Together they keep exactly what `Accepts` admits.
   */
  function SelectNotes(db: Db, userId: string, search: Option<string>, favorites: bool): (r: seq<Note>)
    ensures r == Filter(db.notes, Accepted(userId, search, favorites))
  {
    var owned := Filter(db.notes, OwnedBy(userId));
    var ownedFav := Accepted(userId, None, favorites);
    var favs := if favorites then Filter(owned, IsFavorite()) else owned;
    assert favs == Filter(db.notes, ownedFav) by {
      if favorites {
        FilterCompose(db.notes, OwnedBy(userId), IsFavorite(), ownedFav);
      } else {
        FilterExt(db.notes, OwnedBy(userId), ownedFav);
      }
    }
    var hits := if Present(search) then Filter(favs, Mentions(search.value)) else favs;
    assert hits == Filter(db.notes, Accepted(userId, search, favorites)) by {
      if Present(search) {
        FilterCompose(db.notes, ownedFav, Mentions(search.value), Accepted(userId, search, favorites));
      } else {
        FilterExt(db.notes, ownedFav, Accepted(userId, search, favorites));
      }
    }
    hits
  }

  /**
   * `noteDb.findByUserId`: a permutation of the notes `Accepts` admits,
   * newest `updatedAt` first.
   */
  function FindNotesByUser(db: Db, userId: string, search: Option<string>, favorites: bool): (r: seq<Note>)
    ensures Sorting.SortedDesc(r, UpdatedAt)
    ensures multiset(r) == multiset(Filter(db.notes, Accepted(userId, search, favorites)))
    ensures forall i :: 0 <= i < |r| ==> r[i] in db.notes && Accepts(r[i], userId, search, favorites)
    ensures forall i :: 0 <= i < |db.notes| && Accepts(db.notes[i], userId, search, favorites) ==> db.notes[i] in r
  {
    var selected := SelectNotes(db, userId, search, favorites);
    var r := Sorting.SortDesc(selected, UpdatedAt);
    assert forall i :: 0 <= i < |r| ==> r[i] in multiset(selected);
    assert forall i :: 0 <= i < |db.notes| && Accepts(db.notes[i], userId, search, favorites) ==>
      db.notes[i] in multiset(r);
    r
  }

  /** Without a search string and favourites filter, every note of the owner is listed. */
  lemma FindNotesByUserUnfiltered(db: Db, userId: string, search: Option<string>)
    requires !Present(search)
    ensures multiset(FindNotesByUser(db, userId, search, false))
         == multiset(Filter(db.notes, OwnedBy(userId)))
  {
    FilterExt(db.notes, Accepted(userId, search, false), OwnedBy(userId));
  }

  /** The favourites and search filters only narrow the owner's list. */
  lemma FiltersOnlyNarrow(db: Db, userId: string, search: Option<string>, favorites: bool)
    ensures multiset(FindNotesByUser(db, userId, search, favorites)) <= multiset(FindNotesByUser(db, userId, None, false))
  {
    var narrow := FindNotesByUser(db, userId, search, favorites);
    var all := FindNotesByUser(db, userId, None, false);
    assert multiset(Filter(db.notes, Accepted(userId, search, favorites)))
        <= multiset(Filter(db.notes, Accepted(userId, None, false))) by {
      FilterCompose(db.notes, Accepted(userId, None, false), Accepted(userId, search, favorites),
                    Accepted(userId, search, favorites));
      FilterSubMultiset(Filter(db.notes, Accepted(userId, None, false)), Accepted(userId, search, favorites));
    }
  }

  /** Other users' notes have no influence on what `findByUserId` returns. */
  lemma FindNotesByUserIgnoresOthers(db1: Db, db2: Db, userId: string, search: Option<string>, favorites: bool)
    requires Filter(db1.notes, OwnedBy(userId)) == Filter(db2.notes, OwnedBy(userId))
    ensures FindNotesByUser(db1, userId, search, favorites) == FindNotesByUser(db2, userId, search, favorites)
  {
  }

  function HasNoteId(id: string): Note -> bool {
    (n: Note) => n.id == id
  }

  /** `noteDb.findById`: the first note with this id, whoever owns it. */
  function FindNoteById(db: Db, id: string): (r: Option<Note>)
    ensures r.Some? ==> r.value.id == id
    ensures r.Some? ==> exists i ::
      0 <= i < |db.notes| && db.notes[i] == r.value && forall j :: 0 <= j < i ==> db.notes[j].id != id
    ensures r.None? <==> forall i :: 0 <= i < |db.notes| ==> db.notes[i].id != id
  {
    Find(db.notes, HasNoteId(id))
  }

  /** The target test of `update` and `delete`: same id and same owner. */
  function IsTarget(id: string, userId: string): Note -> bool {
    (n: Note) => n.id == id && n.userId == userId
  }

  /** The object spread of `noteDb.update`: keys present in the patch overwrite, and `updatedAt` is renewed. */
  function Patch(n: Note, p: NotePatch, now: int): Note {
    Note(p.id.GetOr(n.id), p.title.GetOr(n.title), p.content.GetOr(n.content),
         p.userId.GetOr(n.userId), p.categoryId.GetOr(n.categoryId), p.tags.GetOr(n.tags),
         p.isFavorite.GetOr(n.isFavorite), p.createdAt.GetOr(n.createdAt), now)
  }

  /**
   * `noteDb.update`: replaces the first note matching both `id` and `userId`
   * by its patched version; resolves to `None` and changes nothing when no
   * note matches both, whether the id is missing or owned by someone else.
   */
  function UpdateNote(db: Db, id: string, userId: string, p: NotePatch, now: int): (r: Step<Option<Note>>)
    ensures r.value.None? <==> forall i :: 0 <= i < |db.notes| ==> !(db.notes[i].id == id && db.notes[i].userId == userId)
    ensures r.value.None? ==> r.db == db
    ensures r.value.Some? ==> exists i ::
      && 0 <= i < |db.notes|
      && db.notes[i].id == id && db.notes[i].userId == userId
      && (forall j :: 0 <= j < i ==> !(db.notes[j].id == id && db.notes[j].userId == userId))
      && r.value.value == Patch(db.notes[i], p, now)
      && r.db == db.(notes := db.notes[i := r.value.value])
  {
    match FirstIndex(db.notes, IsTarget(id, userId))
    case None => Step(db, None)
    case Some(i) =>
      var updated := Patch(db.notes[i], p, now);
      Step(db.(notes := db.notes[i := updated]), Some(updated))
  }

  /**
   * A successful update keeps the list length and every other note; keys
   * absent from the patch keep their values and `updatedAt` becomes now.
   */
  lemma {:induction false} UpdateNoteKeepsRest(db: Db, id: string, userId: string, p: NotePatch, now: int)
    requires UpdateNote(db, id, userId, p, now).value.Some?
    ensures var r := UpdateNote(db, id, userId, p, now);
      var n := r.value.value;
      && |r.db.notes| == |db.notes|
      && r.db.users == db.users && r.db.categories == db.categories
      && (exists i :: 0 <= i < |db.notes| && IsTarget(id, userId)(db.notes[i]) && r.db.notes[i] == n
            && (forall j :: 0 <= j < |db.notes| && j != i ==> r.db.notes[j] == db.notes[j])
            && (p.title.None? ==> n.title == db.notes[i].title)
            && (p.content.None? ==> n.content == db.notes[i].content)
            && (p.categoryId.None? ==> n.categoryId == db.notes[i].categoryId)
            && (p.isFavorite.None? ==> n.isFavorite == db.notes[i].isFavorite)
            && (p.tags.None? ==> n.tags == db.notes[i].tags)
            && (p.createdAt.None? ==> n.createdAt == db.notes[i].createdAt))
      && (p.id.None? ==> n.id == id)
      && n.updatedAt == now
  {
    var r := UpdateNote(db, id, userId, p, now);
    var i :| 0 <= i < |db.notes| && db.notes[i].id == id && db.notes[i].userId == userId
      && r.value.value == Patch(db.notes[i], p, now)
      && r.db == db.(notes := db.notes[i := r.value.value]);
    assert IsTarget(id, userId)(db.notes[i]);
  }

  /** The owner survives an update exactly when the patch carries no different `userId`. */
  lemma UpdateKeepsOwnerIff(db: Db, id: string, userId: string, p: NotePatch, now: int)
    requires UpdateNote(db, id, userId, p, now).value.Some?
    ensures UpdateNote(db, id, userId, p, now).value.value.userId == userId
        <==> (p.userId.None? || p.userId == Some(userId))
  {
  }

  /**
   * The spread lets a patch with another `userId` hand the note to that user:
   * afterwards the new owner lists it and the old owner no longer does.
   */
  lemma {:induction false} UpdateCanReassignOwner(db: Db, id: string, userId: string, other: string, p: NotePatch, now: int)
    requires UpdateNote(db, id, userId, p, now).value.Some?
    requires p.userId == Some(other) && other != userId
    ensures var r := UpdateNote(db, id, userId, p, now);
      && r.value.value in FindNotesByUser(r.db, other, None, false)
      && r.value.value !in FindNotesByUser(r.db, userId, None, false)
  {
    var r := UpdateNote(db, id, userId, p, now);
    var i :| 0 <= i < |db.notes| && db.notes[i].id == id && db.notes[i].userId == userId
      && r.value.value == Patch(db.notes[i], p, now)
      && r.db == db.(notes := db.notes[i := r.value.value]);
    assert r.db.notes[i] == r.value.value;
    assert Accepts(r.db.notes[i], other, None, false);
  }

  /**
   * `noteDb.delete`: removes the first note matching both `id` and `userId`
   * and keeps the others in order; resolves to `false` and changes nothing
   * when no note matches both.
   */
  function DeleteNote(db: Db, id: string, userId: string): (r: Step<bool>)
    ensures !r.value <==> forall i :: 0 <= i < |db.notes| ==> !(db.notes[i].id == id && db.notes[i].userId == userId)
    ensures !r.value ==> r.db == db
    ensures r.value ==> exists i ::
      && 0 <= i < |db.notes|
      && db.notes[i].id == id && db.notes[i].userId == userId
      && (forall j :: 0 <= j < i ==> !(db.notes[j].id == id && db.notes[j].userId == userId))
      && r.db == db.(notes := db.notes[..i] + db.notes[i + 1..])
    ensures r.value ==> |r.db.notes| == |db.notes| - 1
  {
    match FirstIndex(db.notes, IsTarget(id, userId))
    case None => Step(db, false)
    case Some(i) => Step(db.(notes := db.notes[..i] + db.notes[i + 1..]), true)
  }

  ghost predicate UniqueNoteIds(db: Db) {
    forall i, j :: 0 <= i < j < |db.notes| ==> db.notes[i].id != db.notes[j].id
  }

  /** With unique ids, deleting the same note a second time resolves to `false`. */
  lemma {:induction false} DeleteTwiceFails(db: Db, id: string, userId: string)
    requires UniqueNoteIds(db)
    requires DeleteNote(db, id, userId).value
    ensures var db1 := DeleteNote(db, id, userId).db;
      DeleteNote(db1, id, userId) == Step(db1, false)
  {
    var db1 := DeleteNote(db, id, userId).db;
    var i :| 0 <= i < |db.notes| && db.notes[i].id == id && db.notes[i].userId == userId
      && db1 == db.(notes := db.notes[..i] + db.notes[i + 1..]);
    forall k | 0 <= k < |db1.notes|
      ensures db1.notes[k].id != id
    {
      if k < i {
        assert db1.notes[k] == db.notes[k];
      } else {
        assert db1.notes[k] == db.notes[k + 1];
      }
    }
  }

  /**
   * What `update` resolves to for a user does not depend on other users'
   * notes, so a note of someone else cannot be told apart from a missing one.
   */
  lemma {:induction false} UpdateResultIgnoresOthers(db1: Db, db2: Db, id: string, userId: string, p: NotePatch, now: int)
    requires Filter(db1.notes, OwnedBy(userId)) == Filter(db2.notes, OwnedBy(userId))
    ensures UpdateNote(db1, id, userId, p, now).value == UpdateNote(db2, id, userId, p, now).value
  {
    TargetThroughOwner(db1, id, userId);
    TargetThroughOwner(db2, id, userId);
    var f1 := FirstIndex(db1.notes, IsTarget(id, userId));
    var f2 := FirstIndex(db2.notes, IsTarget(id, userId));
    assert f1.Some? == f2.Some?;
  }

  /** Likewise for `delete`. */
  lemma {:induction false} DeleteResultIgnoresOthers(db1: Db, db2: Db, id: string, userId: string)
    requires Filter(db1.notes, OwnedBy(userId)) == Filter(db2.notes, OwnedBy(userId))
    ensures DeleteNote(db1, id, userId).value == DeleteNote(db2, id, userId).value
  {
    TargetThroughOwner(db1, id, userId);
    TargetThroughOwner(db2, id, userId);
  }

  lemma TargetThroughOwner(db: Db, id: string, userId: string)
    ensures Find(Filter(db.notes, OwnedBy(userId)), IsTarget(id, userId)) == Find(db.notes, IsTarget(id, userId))
  {
    FindThroughFilter(db.notes, OwnedBy(userId), IsTarget(id, userId));
  }

  /** A created note is listed for its owner. */
  lemma CreatedNoteIsListed(db: Db, data: NewNote, id: string, now: int)
    ensures var r := CreateNote(db, data, id, now);
      r.value in FindNotesByUser(r.db, data.userId, None, false)
  {
    var r := CreateNote(db, data, id, now);
    assert r.db.notes[|db.notes|] == r.value;
    assert Accepts(r.value, data.userId, None, false);
  }

  /** A note created under a fresh id is what a lookup by that id finds. */
  lemma {:induction false} CreatedNoteFoundById(db: Db, data: NewNote, id: string, now: int)
    requires forall i :: 0 <= i < |db.notes| ==> db.notes[i].id != id
    ensures var r := CreateNote(db, data, id, now);
      FindNoteById(r.db, id) == Some(r.value)
  {
    var r := CreateNote(db, data, id, now);
    var notes := r.db.notes;
    assert notes[|db.notes|] == r.value;
    var found := FindNoteById(r.db, id);
    assert found.Some?;
    var i :| 0 <= i < |notes| && notes[i] == found.value
      && forall j :: 0 <= j < i ==> !HasNoteId(id)(notes[j]);
    assert i == |db.notes|;
  }

  // ----------------------------------------------------------- categories

  function CategoryName(c: Category): string {
    c.name
  }

  function OwnsCategory(userId: string): Category -> bool {
    (c: Category) => c.userId == userId
  }

  function NamedFor(name: string, userId: string): Category -> bool {
    (c: Category) => c.name == name && c.userId == userId
  }

  function HasCategoryId(id: string): Category -> bool {
    (c: Category) => c.id == id
  }

  /**
   * `categoryDb.create`: refuses a name the same user already has (exact
   * comparison); otherwise appends the category.
   */
  function CreateCategory(db: Db, data: NewCategory, id: string, now: int): (r: Step<Result<Category>>)
    ensures r.value.Err? <==> exists i ::
      && 0 <= i < |db.categories|
      && db.categories[i].name == data.name && db.categories[i].userId == data.userId
    ensures r.value.Err? ==> r.db == db && r.value.message == DuplicateCategoryMessage
    ensures r.value.Ok? ==> r.db == db.(categories := db.categories + [r.value.value])
    ensures r.value.Ok? ==>
      var c := r.value.value;
      && c.id == id && c.name == data.name && c.color == data.color && c.userId == data.userId
      && c.createdAt == now && c.updatedAt == now
  {
    if Find(db.categories, NamedFor(data.name, data.userId)).Some? then
      Step(db, Err(DuplicateCategoryMessage))
    else
      var category := Category(id, data.name, data.color, data.userId, now, now);
      Step(db.(categories := db.categories + [category]), Ok(category))
  }

  ghost predicate UniqueCategoryNames(db: Db) {
    forall i, j :: 0 <= i < j < |db.categories| ==>
      !(db.categories[i].name == db.categories[j].name && db.categories[i].userId == db.categories[j].userId)
  }

  /** Per-user name uniqueness is an invariant of category creation. */
  lemma CreateCategoryKeepsNamesUnique(db: Db, data: NewCategory, id: string, now: int)
    requires UniqueCategoryNames(db)
    ensures UniqueCategoryNames(CreateCategory(db, data, id, now).db)
  {
  }

  /** A name taken by one user stays available to another. */
  lemma CategoryNameFreeForOtherUser(db: Db, data: NewCategory, id: string, now: int)
    requires forall i :: 0 <= i < |db.categories| && db.categories[i].name == data.name
               ==> db.categories[i].userId != data.userId
    ensures CreateCategory(db, data, id, now).value.Ok?
  {
  }

  /** `categoryDb.findByUserId`: the user's categories ordered by name. */
  function CategoriesOfUser(db: Db, userId: string): (r: seq<Category>)
    ensures Sorting.SortedByText(r, CategoryName)
    ensures multiset(r) == multiset(Filter(db.categories, OwnsCategory(userId)))
    ensures forall i :: 0 <= i < |r| ==> r[i].userId == userId
  {
    var r := Sorting.SortByText(Filter(db.categories, OwnsCategory(userId)), CategoryName);
    assert forall i :: 0 <= i < |r| ==> r[i] in multiset(Filter(db.categories, OwnsCategory(userId)));
    r
  }

  /** `categoryDb.findById`: the first category with this id, whoever owns it. */
  function FindCategoryById(db: Db, id: string): (r: Option<Category>)
    ensures r.Some? ==> r.value.id == id
    ensures r.Some? ==> exists i ::
      0 <= i < |db.categories| && db.categories[i] == r.value && forall j :: 0 <= j < i ==> db.categories[j].id != id
    ensures r.None? <==> forall i :: 0 <= i < |db.categories| ==> db.categories[i].id != id
  {
    Find(db.categories, HasCategoryId(id))
  }
}
