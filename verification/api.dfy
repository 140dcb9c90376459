/**
 * The JSON shapes the route handlers answer with, and the outcome of the
 * authentication middleware that runs before every handler.
 */
module Api {
  import opened Common

  const InternalErrorMessage := "Internal server error"

  /** The `{id, name, color}` summary of a category embedded in a note. */
  datatype CategoryRef = CategoryRef(id: string, name: string, color: string)

  /** A note as the routes send it, with the front end's snake_case names. */
  datatype NoteJson = NoteJson(
    id: string,
    title: string,
    content: string,
    user_id: string,
    category_id: Option<string>,
    is_favorite: bool,
    created_at: int,
    updated_at: int,
    category: Option<CategoryRef>,
    tags: seq<string>)

  /** A category as the routes send it. */
  datatype CategoryJson = CategoryJson(
    id: string,
    name: string,
    color: string,
    user_id: string,
    created_at: int,
    updated_at: int)

  datatype Body =
    | ErrorBody(error: string)
    | NotesBody(notes: seq<NoteJson>)
    | NoteBody(note: NoteJson)
    | CategoriesBody(categories: seq<CategoryJson>)
    | CategoryBody(category: CategoryJson)

  datatype Response = Response(status: int, body: Body)

  /** Why the middleware refused a request. */
  datatype AuthFailure =
    | MissingToken   // no bearer token in the request
    | UnknownUser    // the token verified but names no stored user
    | BadToken       // anything in the middleware threw (verification, database connection, lookup)

  /** The identity the middleware attached to the request, or its refusal. */
  datatype Auth = Authenticated(userId: string) | Unauthenticated(failure: AuthFailure)

  /** The middleware's refusal: status 401 with a message naming the cause. */
  function AuthFailureResponse(f: AuthFailure): (r: Response)
    ensures r.status == 401 && r.body.ErrorBody?
  {
    match f
    case MissingToken => Response(401, ErrorBody("Authentication token required"))
    case UnknownUser => Response(401, ErrorBody("User not found"))
    case BadToken => Response(401, ErrorBody("Invalid authentication token"))
  }

  /** The generic answer of every handler's catch-all. */
  function InternalError(): (r: Response)
    ensures r.status == 500 && r.body == ErrorBody(InternalErrorMessage)
  {
    Response(500, ErrorBody(InternalErrorMessage))
  }
}
