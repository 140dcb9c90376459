/**
 * The `/api/notes` handlers: `GET` lists the caller's notes, `POST` creates
 * one. Both run the authentication middleware first and answer its refusal
 * unchanged.
 */
module NotesRoute {
  import opened Common
  import opened Seqs
  import opened Api
  import FileDb

  const MissingFieldsMessage := "Title and content are required"

  /** The `search` and `favorites` query parameters, `None` when absent. */
  datatype Query = Query(search: Option<string>, favorites: Option<string>)

  /**
   * The fields `POST` destructures from the JSON body, `None` when absent or
   * `null`. A `user_id` field is listed only to show that it is ignored.
   */
  datatype PostBody = PostBody(
    title: Option<string>,
    content: Option<string>,
    category_id: Option<string>,
    is_favorite: Option<bool>,
    user_id: Option<string>)

  /** The `search` parameter, where an empty value counts as absent. */
  function SearchParam(q: Query): (r: Option<string>)
    ensures r.None? <==> !Present(q.search)
    ensures r.Some? ==> r == q.search && r.value != ""
  {
    if Present(q.search) then q.search else None
  }

  /** The favourites filter is on only when the `favorites` parameter is exactly "true". */
  function FavoritesParam(q: Query): bool {
    q.favorites == Some("true")
  }

  /**
   * The category embedded in a note's response: looked up by id alone when
   * the note has a non-empty `categoryId`, without comparing owners.
   */
  function CategoryOf(db: FileDb.Db, n: FileDb.Note): (r: Option<CategoryRef>)
    ensures r.Some? <==> (Present(n.categoryId) &&
      exists i :: 0 <= i < |db.categories| && db.categories[i].id == n.categoryId.value)
    ensures r.Some? ==> exists i ::
      && 0 <= i < |db.categories| && db.categories[i].id == n.categoryId.value
      && (forall j :: 0 <= j < i ==> db.categories[j].id != n.categoryId.value)
      && r.value == CategoryRef(db.categories[i].id, db.categories[i].name, db.categories[i].color)
  {
    if Present(n.categoryId) then
      match FileDb.FindCategoryById(db, n.categoryId.value)
      case Some(c) => Some(CategoryRef(c.id, c.name, c.color))
      case None => None
    else None
  }

  /** A stored note renamed field by field into its response shape. */
  function ToJson(db: FileDb.Db, n: FileDb.Note): (r: NoteJson)
    ensures r.id == n.id && r.title == n.title && r.content == n.content
    ensures r.user_id == n.userId && r.is_favorite == n.isFavorite
    ensures r.created_at == n.createdAt && r.updated_at == n.updatedAt
    ensures r.category_id.Some? <==> Present(n.categoryId)
    ensures r.category_id.Some? ==> r.category_id == n.categoryId
    ensures r.category.Some? ==> r.category_id.Some?
    ensures r.category == CategoryOf(db, n)
    ensures r.tags == []
  {
    NoteJson(n.id, n.title, n.content, n.userId,
             if Present(n.categoryId) then n.categoryId else None,
             n.isFavorite, n.createdAt, n.updatedAt, CategoryOf(db, n), [])
  }

  function Transform(db: FileDb.Db): FileDb.Note -> NoteJson {
    (n: FileDb.Note) => ToJson(db, n)
  }

  /**
   * The embedded category may belong to another user: the lookup answers
   * with whichever category first carries the id.
   */
  lemma ForeignCategoryIsEmbedded(db: FileDb.Db, n: FileDb.Note, i: nat)
    requires i < |db.categories| && Present(n.categoryId)
    requires db.categories[i].id == n.categoryId.value && db.categories[i].userId != n.userId
    requires forall j :: 0 <= j < i ==> db.categories[j].id != n.categoryId.value
    ensures ToJson(db, n).category == Some(CategoryRef(db.categories[i].id, db.categories[i].name, db.categories[i].color))
  {
    var found := FileDb.FindCategoryById(db, n.categoryId.value);
    var k :| 0 <= k < |db.categories| && db.categories[k] == found.value
      && forall j :: 0 <= j < k ==> !FileDb.HasCategoryId(n.categoryId.value)(db.categories[j]);
    assert k == i;
  }

  /**
   * `GET /api/notes`: the middleware's refusal, or status 200 with the
   * caller's notes from `findByUserId`, each renamed, in the store's order.
   */
  function Get(db: FileDb.Db, auth: Auth, q: Query): (r: Response)
    ensures auth.Unauthenticated? ==> r == AuthFailureResponse(auth.failure)
    ensures auth.Authenticated? ==>
      var found := FileDb.FindNotesByUser(db, auth.userId, SearchParam(q), FavoritesParam(q));
      && r.status == 200 && r.body.NotesBody?
      && |r.body.notes| == |found|
      && forall i :: 0 <= i < |found| ==> r.body.notes[i] == ToJson(db, found[i])
  {
    match auth
    case Unauthenticated(f) => AuthFailureResponse(f)
    case Authenticated(userId) =>
      var found := FileDb.FindNotesByUser(db, userId, SearchParam(q), FavoritesParam(q));
      Response(200, NotesBody(Map(found, Transform(db))))
  }

  /**
   * An empty `search` is no search, and any `favorites` value other than
   * exactly `"true"` is no favourites filter.
   */
  lemma GetParamDefaults(db: FileDb.Db, auth: Auth, favorites: string)
    requires favorites != "true"
    ensures Get(db, auth, Query(Some(""), Some(favorites))) == Get(db, auth, Query(None, None))
  {
  }

  /** Every note in a `GET` answer belongs to the caller. */
  lemma GetListsOnlyOwnNotes(db: FileDb.Db, userId: string, q: Query)
    ensures var r := Get(db, Authenticated(userId), q);
      forall i :: 0 <= i < |r.body.notes| ==> r.body.notes[i].user_id == userId
  {
  }

  /**
   * `POST /api/notes`: after the middleware, a body that does not parse
   * (`Err`, carrying the parser's message) gives 500; a missing or empty
   * `title` or `content` gives 400 and stores nothing; otherwise the note is
   * created for the authenticated user, a falsy `category_id` becomes no
   * category, `is_favorite` defaults to false, and the answer is the renamed
   * note.
   */
  function Post(db: FileDb.Db, auth: Auth, body: Result<PostBody>, id: string, now: int): (r: FileDb.Step<Response>)
    ensures auth.Unauthenticated? ==> r == FileDb.Step(db, AuthFailureResponse(auth.failure))
    ensures auth.Authenticated? && body.Err? ==> r == FileDb.Step(db, InternalError())
    ensures auth.Authenticated? && body.Ok? && !(Present(body.value.title) && Present(body.value.content)) ==>
      r == FileDb.Step(db, Response(400, ErrorBody(MissingFieldsMessage)))
    ensures auth.Authenticated? && body.Ok? && Present(body.value.title) && Present(body.value.content) ==>
      r.value.status == 200
    ensures r.value.status == 200 ==>
      && auth.Authenticated? && body.Ok?
      && |r.db.notes| == |db.notes| + 1
      && r.db.notes[..|db.notes|] == db.notes
      && r.db.users == db.users && r.db.categories == db.categories
      && var n := r.db.notes[|db.notes|];
      && n.id == id && n.userId == auth.userId
      && Some(n.title) == body.value.title && Some(n.content) == body.value.content
      && n.isFavorite == body.value.is_favorite.GetOr(false)
      && n.categoryId == (if Present(body.value.category_id) then body.value.category_id else None)
      && n.tags == []
      && n.createdAt == now && n.updatedAt == now
      && r.value.body == NoteBody(ToJson(db, n))
    ensures r.value.status == 200 || r.db == db
  {
    match auth
    case Unauthenticated(f) => FileDb.Step(db, AuthFailureResponse(f))
    case Authenticated(userId) =>
      match body
      case Err(_) => FileDb.Step(db, InternalError())
      case Ok(b) =>
        if !(Present(b.title) && Present(b.content)) then
          FileDb.Step(db, Response(400, ErrorBody(MissingFieldsMessage)))
        else
          var data := FileDb.NewNote(b.title.value, b.content.value, userId,
                                     if Present(b.category_id) then b.category_id else None,
                                     [], b.is_favorite.GetOr(false));
          var created := FileDb.CreateNote(db, data, id, now);
          assert created.db.notes[|db.notes|] == created.value;
          FileDb.Step(created.db, Response(200, NoteBody(ToJson(created.db, created.value))))
  }

  /** A `user_id` in the body never changes what `POST` does: the owner comes from the token. */
  lemma PostIgnoresBodyUserId(db: FileDb.Db, auth: Auth, b: PostBody, other: Option<string>, id: string, now: int)
    ensures Post(db, auth, Ok(b), id, now) == Post(db, auth, Ok(b.(user_id := other)), id, now)
  {
  }

  /** A note created by `POST` shows up in the creator's next unfiltered `GET`. */
  lemma PostThenGet(db: FileDb.Db, userId: string, b: PostBody, id: string, now: int)
    requires Present(b.title) && Present(b.content)
    ensures var r := Post(db, Authenticated(userId), Ok(b), id, now);
      r.value.body.note in Get(r.db, Authenticated(userId), Query(None, None)).body.notes
  {
    var r := Post(db, Authenticated(userId), Ok(b), id, now);
    var n := r.db.notes[|db.notes|];
    var found := FileDb.FindNotesByUser(r.db, userId, None, false);
    assert FileDb.Accepts(n, userId, None, false);
    var k :| 0 <= k < |found| && found[k] == n;
    assert ToJson(r.db, n) == ToJson(db, n);
  }
}
