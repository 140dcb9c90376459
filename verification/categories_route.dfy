/**
 * The `/api/categories` handlers: `GET` lists the caller's categories, `POST`
 * creates one. Both run the authentication middleware first.
 */
module CategoriesRoute {
  import opened Common
  import opened Seqs
  import opened Api
  import Text
  import FileDb

  const MissingNameMessage := "Category name is required"
  const DefaultColor := "#3B82F6"

  /** The fields `POST` destructures from the JSON body, `None` when absent or `null`. */
  datatype PostBody = PostBody(name: Option<string>, color: Option<string>)

  /** A stored category renamed field by field into its response shape. */
  function ToJson(c: FileDb.Category): (r: CategoryJson)
    ensures r.id == c.id && r.name == c.name && r.color == c.color && r.user_id == c.userId
    ensures r.created_at == c.createdAt && r.updated_at == c.updatedAt
  {
    CategoryJson(c.id, c.name, c.color, c.userId, c.createdAt, c.updatedAt)
  }

  function Transform(): FileDb.Category -> CategoryJson {
    (c: FileDb.Category) => ToJson(c)
  }

  /**
   * `GET /api/categories`: the middleware's refusal, or status 200 with the
   * caller's categories from `findByUserId`, renamed, in that order.
   */
  function Get(db: FileDb.Db, auth: Auth): (r: Response)
    ensures auth.Unauthenticated? ==> r == AuthFailureResponse(auth.failure)
    ensures auth.Authenticated? ==>
      var found := FileDb.CategoriesOfUser(db, auth.userId);
      && r.status == 200 && r.body.CategoriesBody?
      && |r.body.categories| == |found|
      && forall i :: 0 <= i < |found| ==> r.body.categories[i] == ToJson(found[i])
  {
    match auth
    case Unauthenticated(f) => AuthFailureResponse(f)
    case Authenticated(userId) =>
      Response(200, CategoriesBody(Map(FileDb.CategoriesOfUser(db, userId), Transform())))
  }

  /** A `GET` answer holds every category of the caller and no other. */
  lemma {:induction false} GetListsExactlyOwnCategories(db: FileDb.Db, userId: string)
    ensures var r := Get(db, Authenticated(userId));
      && (forall i :: 0 <= i < |r.body.categories| ==> r.body.categories[i].user_id == userId)
      && (forall c :: c in db.categories && c.userId == userId ==> ToJson(c) in r.body.categories)
  {
    var found := FileDb.CategoriesOfUser(db, userId);
    var r := Get(db, Authenticated(userId));
    forall c | c in db.categories && c.userId == userId
      ensures ToJson(c) in r.body.categories
    {
      var k :| 0 <= k < |db.categories| && db.categories[k] == c;
      assert c in Filter(db.categories, FileDb.OwnsCategory(userId));
      assert c in multiset(found);
      var j :| 0 <= j < |found| && found[j] == c;
      assert r.body.categories[j] == ToJson(c);
    }
  }

  /** How a failure of `categoryDb.create` is answered: a duplicate name gives 400 with its message, anything else 500. */
  function CreateFailureResponse(message: string): (r: Response)
    ensures Text.Includes(message, "already exists") ==> r == Response(400, ErrorBody(message))
    ensures !Text.Includes(message, "already exists") ==> r == InternalError()
  {
    if Text.Includes(message, "already exists") then Response(400, ErrorBody(message))
    else InternalError()
  }

  /** The store's duplicate-name error is answered with 400 and its own message. */
  lemma DuplicateMessageGives400()
    ensures CreateFailureResponse(FileDb.DuplicateCategoryMessage)
         == Response(400, ErrorBody(FileDb.DuplicateCategoryMessage))
  {
    var m := FileDb.DuplicateCategoryMessage;
    assert m[24..24 + |"already exists"|] == "already exists";
    Text.IncludesIffOccurs(m, "already exists");
    assert Text.OccursAt(m, "already exists", 24);
  }

  /** The caller already has a category named `name`. */
  predicate UsesName(db: FileDb.Db, userId: string, name: string) {
    exists i :: 0 <= i < |db.categories| && db.categories[i].name == name && db.categories[i].userId == userId
  }

  /**
   * `POST /api/categories`: after the middleware, everything the handler
   * throws goes through `CreateFailureResponse`. That includes a body that
   * does not parse (`Err`, carrying the parser's message) and the store's
   * duplicate-name refusal. A missing or empty `name` gives 400 and stores
   * nothing. Otherwise the category is created for the authenticated user,
   * with `color` defaulting to blue.
   */
  function Post(db: FileDb.Db, auth: Auth, body: Result<PostBody>, id: string, now: int): (r: FileDb.Step<Response>)
    ensures auth.Unauthenticated? ==> r == FileDb.Step(db, AuthFailureResponse(auth.failure))
    ensures auth.Authenticated? && body.Err? ==> r == FileDb.Step(db, CreateFailureResponse(body.message))
    ensures auth.Authenticated? && body.Ok? && !Present(body.value.name) ==>
      r == FileDb.Step(db, Response(400, ErrorBody(MissingNameMessage)))
    ensures auth.Authenticated? && body.Ok? && Present(body.value.name) ==>
      && (UsesName(db, auth.userId, body.value.name.value) ==>
            r == FileDb.Step(db, CreateFailureResponse(FileDb.DuplicateCategoryMessage)))
      && (!UsesName(db, auth.userId, body.value.name.value) ==> r.value.status == 200)
    ensures r.value.status == 200 ==>
      && auth.Authenticated? && body.Ok?
      && |r.db.categories| == |db.categories| + 1
      && r.db.categories[..|db.categories|] == db.categories
      && r.db.users == db.users && r.db.notes == db.notes
      && var c := r.db.categories[|db.categories|];
      && c.id == id && c.userId == auth.userId
      && Some(c.name) == body.value.name
      && c.color == (if Present(body.value.color) then body.value.color.value else DefaultColor)
      && c.createdAt == now && c.updatedAt == now
      && r.value.body == CategoryBody(ToJson(c))
    ensures r.value.status == 200 || r.db == db
  {
    match auth
    case Unauthenticated(f) => FileDb.Step(db, AuthFailureResponse(f))
    case Authenticated(userId) =>
      match body
      case Err(message) => FileDb.Step(db, CreateFailureResponse(message))
      case Ok(b) =>
        if !Present(b.name) then
          FileDb.Step(db, Response(400, ErrorBody(MissingNameMessage)))
        else
          var color := if Present(b.color) then b.color.value else DefaultColor;
          var created := FileDb.CreateCategory(db, FileDb.NewCategory(b.name.value, color, userId), id, now);
          match created.value
          case Err(message) =>
            assert CreateFailureResponse(message).status != 200;
            FileDb.Step(created.db, CreateFailureResponse(message))
          case Ok(c) =>
            assert created.db.categories[|db.categories|] == c;
            FileDb.Step(created.db, Response(200, CategoryBody(ToJson(c))))
  }

  /** A name the caller already uses is refused with 400 and the store's message; nothing is stored. */
  lemma PostDuplicateGives400(db: FileDb.Db, userId: string, b: PostBody, id: string, now: int)
    requires Present(b.name)
    requires UsesName(db, userId, b.name.value)
    ensures Post(db, Authenticated(userId), Ok(b), id, now)
         == FileDb.Step(db, Response(400, ErrorBody(FileDb.DuplicateCategoryMessage)))
  {
    DuplicateMessageGives400();
  }
}
