# Note-taking app: owner-scoped record store, routes, list filter and demo store

This project models, in Dafny, the part of the note-taking web application
that decides who sees and changes which record:

- the flat-file store (`src/lib/filedb.ts`), with users, notes and categories.
  It enforces email uniqueness and per-user category-name uniqueness. Reads are
  scoped to an owner, and update and delete match on both note id and owner.
- the `/api/notes` and `/api/categories` handlers, modelled as pure functions
  from the middleware's outcome and the request to a status and a JSON body;
- the notes list view's client-side filter and its count label;
- the in-memory demo store's list transitions.

Each collection is a `seq` inside a `FileDb.Db` value. Every writing store
operation returns a `Step`: the new `Db` and the value the TypeScript call
resolves to, with thrown errors as `Err(message)`. Lookups return the value
alone. A request body that fails to parse is `Err(message)` too, carrying the
parser's message. Ids, the current time and the password
hash function are parameters. Timestamps are integers. The authentication
middleware is an input, `Api.Auth`: either the authenticated user id, or one of
its three refusals, each answered with status 401.

Modules: `Common` (Option, Result, string truthiness), `Seqs` (filter, map,
find and subsequence, with their lemmas), `Text` (ASCII lower-casing,
`includes`, name order, decimal digits), `Sorting` (stable insertion sorts),
`FileDb`, `Api`, `NotesRoute`, `CategoriesRoute`, `NotesList`, `DemoStore`.

Behaviour worth knowing, each stated by a lemma:

- `noteDb.update` spreads the caller's partial note over the stored one. A patch
  carrying another `userId` therefore hands the note to that user
  (`FileDb.UpdateCanReassignOwner`). The owner is kept exactly when the patch
  has no `userId` or the same one (`FileDb.UpdateKeepsOwnerIff`). The store
  itself does not protect the owner. The `PUT` handler in
  `src/app/api/notes/[id]/route.ts` (lines 18-23) forwards only `title`,
  `content`, `categoryId` and `isFavorite`, so requests through that handler
  cannot reach this case.
- A note's response embeds the category found by id alone. It can belong to
  another user (`NotesRoute.ForeignCategoryIsEmbedded`). Neither the `POST`
  handler nor the store compares the category's owner with the note's.
- The categories `POST` handler tests every thrown message for
  "already exists", including the parser's. So a malformed body whose parse
  error message contains that text is answered with 400, not 500
  (`CategoriesRoute.Post`).
- In the demo store, an update whose `category_id` is the empty string clears
  the id but keeps the old category object
  (`DemoStore.ClearingCategoryIdKeepsCategory`).
- Update and delete answer for a user the same whatever other users' notes
  exist (`FileDb.UpdateResultIgnoresOthers`, `FileDb.DeleteResultIgnoresOthers`).
  A note owned by someone else cannot be told apart from a missing one.

## Model

| member | source | states |
|---|---|---|
| FileDb.FindUserByEmail | src/lib/filedb.ts:102-105 | the first stored user with exactly that email, and none iff no user has it |
| FileDb.FindUserById | src/lib/filedb.ts:107-110 | the first stored user with that id, and none iff no user has it |
| FileDb.CreateUser | src/lib/filedb.ts:77-100 | fails with the duplicate-email message, store unchanged, iff some stored user has an equal email; otherwise appends exactly one user with the given id, email, profile and timestamps, whose password is the hash of the supplied one |
| FileDb.CreateUserKeepsEmailsUnique | src/lib/filedb.ts:80-96 | creating a user preserves uniqueness of emails across the store |
| FileDb.CreatedUserFoundByEmail | src/lib/filedb.ts:77-105 | after a successful create, looking the email up returns the created user |
| FileDb.SecondCreateWithSameEmailFails | src/lib/filedb.ts:80-83 | registering the same email a second time fails and leaves the store as the first create left it |
| FileDb.CreateNote | src/lib/filedb.ts:119-133 | appends one note with the supplied id, fields and owner, and both timestamps equal to now; users and categories unchanged |
| FileDb.CreatedNoteIsListed | src/lib/filedb.ts:119-152 | a created note appears in its owner's unfiltered listing |
| FileDb.CreatedNoteFoundById | src/lib/filedb.ts:119-157 | with a fresh id, looking the id up after create returns the created note |
| FileDb.SelectNotes | src/lib/filedb.ts:137-149 | the owner filter, then the favourites filter, then the search filter keep exactly the notes satisfying the single condition `Accepts` |
| FileDb.MatchesSearchIffOccurs | src/lib/filedb.ts:143-148 | a note matches a search iff the lowered query occurs at some position of the lowered title or the lowered content |
| FileDb.FindNotesByUser | src/lib/filedb.ts:135-152 | the result is sorted by `updatedAt`, newest first, and is a permutation of the stored notes that belong to the owner and pass the favourites and search filters |
| FileDb.FindNotesByUserUnfiltered | src/lib/filedb.ts:139-149 | with an absent or empty search and favourites off, the result is a permutation of all the owner's notes |
| FileDb.FiltersOnlyNarrow | src/lib/filedb.ts:137-149 | the favourites and search filters only remove notes from the owner's full listing |
| FileDb.FindNotesByUserIgnoresOthers | src/lib/filedb.ts:137 | two stores holding the same notes of a user give that user the same listing |
| FileDb.FindNoteById | src/lib/filedb.ts:154-157 | the first stored note with that id, whoever owns it, and none iff no note has it |
| FileDb.UpdateNote | src/lib/filedb.ts:159-173 | resolves to none, store unchanged, iff no note matches both id and owner; otherwise replaces the first matching note, in place, by its patched version and returns that version |
| FileDb.UpdateNoteKeepsRest | src/lib/filedb.ts:165-172 | a successful update keeps the list length, users, categories and every other note; fields absent from the patch keep their values and `updatedAt` becomes now |
| FileDb.UpdateKeepsOwnerIff | src/lib/filedb.ts:165-169 | the updated note keeps its owner iff the patch has no `userId` or the same one |
| FileDb.UpdateCanReassignOwner | src/lib/filedb.ts:165-169 | a patch with another `userId` moves the note into that user's listing and out of the original owner's |
| FileDb.DeleteNote | src/lib/filedb.ts:175-184 | resolves to false, store unchanged, iff no note matches both id and owner; otherwise removes the first matching note and keeps the others in order |
| FileDb.DeleteTwiceFails | src/lib/filedb.ts:175-184 | with unique note ids, a second delete of the same note resolves to false and changes nothing |
| FileDb.UpdateResultIgnoresOthers | src/lib/filedb.ts:161-163 | what update resolves to for a user is the same in any two stores holding the same notes of that user |
| FileDb.DeleteResultIgnoresOthers | src/lib/filedb.ts:177-179 | what delete resolves to for a user is the same in any two stores holding the same notes of that user |
| FileDb.CreateCategory | src/lib/filedb.ts:189-208 | fails with the duplicate-name message, store unchanged, iff the same user already has a category of that exact name; otherwise appends exactly one category with the supplied fields |
| FileDb.CreateCategoryKeepsNamesUnique | src/lib/filedb.ts:192-195 | creating a category preserves uniqueness of (name, owner) pairs |
| FileDb.CategoryNameFreeForOtherUser | src/lib/filedb.ts:192-195 | a name used only by other users is accepted |
| FileDb.CategoriesOfUser | src/lib/filedb.ts:210-215 | the result holds only the user's categories, is a permutation of them, and is ordered by name |
| FileDb.FindCategoryById | src/lib/filedb.ts:217-220 | the first stored category with that id, whoever owns it, and none iff no category has it |
| Text.IncludesIffOccurs | src/lib/filedb.ts:146-147 | `includes` holds iff the query occurs at some position of the string |
| Sorting.FilterSortDesc | src/lib/filedb.ts:151 | filtering the newest-first sort equals sorting the filtered list, because the sort keeps the order of equal keys |
| Api.AuthFailureResponse | src/lib/auth-middleware.ts:20-50 | every refusal of the middleware is answered with status 401 and an error body |
| NotesRoute.SearchParam | src/app/api/notes/route.ts:12 | the search is absent iff the parameter is absent or empty, and otherwise is the parameter |
| NotesRoute.GetParamDefaults | src/app/api/notes/route.ts:12-13 | an empty search and any favourites value other than exactly "true" answer like no parameters at all |
| NotesRoute.CategoryOf | src/app/api/notes/route.ts:19-29 | the embedded category is present iff the note has a non-empty category id and some stored category has that id, and then summarises the first such category |
| NotesRoute.ToJson | src/app/api/notes/route.ts:31-42 | the response renames each stored field; `category_id` is the stored id when non-empty and null otherwise; the embedded category is the one `CategoryOf` finds, present only with a category id; tags are empty |
| NotesRoute.ForeignCategoryIsEmbedded | src/app/api/notes/route.ts:20-28 | the first category carrying the id is embedded even when it belongs to another user |
| NotesRoute.Get | src/app/api/notes/route.ts:5-53 | an authentication failure is answered unchanged, whatever the store holds; otherwise status 200 with the owner's listing for the parsed parameters, same length and order, each note renamed |
| NotesRoute.GetListsOnlyOwnNotes | src/app/api/notes/route.ts:15 | every note in a GET answer has the caller as `user_id` |
| NotesRoute.Post | src/app/api/notes/route.ts:55-116 | authentication failure first; an unparsable body gives 500; missing or empty title or content gives 400 and stores nothing; otherwise 200, appending one note owned by the authenticated user with both timestamps now, `is_favorite` defaulting to false, a falsy `category_id` giving none and empty tags, and answering that note renamed |
| NotesRoute.PostIgnoresBodyUserId | src/app/api/notes/route.ts:61-79 | a `user_id` in the body never changes the store or the answer |
| NotesRoute.PostThenGet | src/app/api/notes/route.ts:72-79 | a note created by a valid POST is in the creator's next unfiltered GET answer |
| CategoriesRoute.ToJson | src/app/api/categories/route.ts:15-22 | the response renames each stored category field one-to-one |
| CategoriesRoute.Get | src/app/api/categories/route.ts:5-32 | an authentication failure is answered unchanged; otherwise status 200 with the owner's name-ordered categories, same length and order, each renamed |
| CategoriesRoute.GetListsExactlyOwnCategories | src/app/api/categories/route.ts:12-22 | a GET answer lists every category of the caller and only those |
| CategoriesRoute.CreateFailureResponse | src/app/api/categories/route.ts:68-83 | a thrown error whose message includes "already exists" gives 400 with that message; any other gives 500 |
| CategoriesRoute.DuplicateMessageGives400 | src/app/api/categories/route.ts:71-77 | the store's duplicate-name message is answered with 400 and that message |
| CategoriesRoute.Post | src/app/api/categories/route.ts:34-84 | authentication failure first; a parse error's message goes through `CreateFailureResponse`; missing or empty name gives 400 and stores nothing; a name the caller already uses gives the duplicate-message failure response and stores nothing; otherwise 200, appending one category owned by the authenticated user with both timestamps now and colour defaulting to #3B82F6 |
| CategoriesRoute.PostDuplicateGives400 | src/app/api/categories/route.ts:71-77 | a name the caller already uses is refused with 400 and the store's message, and nothing is stored |
| NotesList.MatchesSearchIffOccurs | src/components/notes/NotesList.tsx:46-48 | a note matches the view's search iff the query is empty or the lowered query occurs in the lowered title or content |
| NotesList.FilteredNotes | src/components/notes/NotesList.tsx:45-53 | the result is an order-preserving subsequence holding every copy of each matching note and nothing else; with favourites on all are favourites; with an empty query and favourites off it is the whole list |
| NotesList.FilteredNotesIdempotent | src/components/notes/NotesList.tsx:45-53 | filtering twice gives the same list as filtering once |
| NotesList.RequestFor | src/store/mongoNoteStore.ts:38-39 | the request for the view's query has an absent search iff the query is empty and a favourites filter iff the toggle is on |
| NotesList.MatchesAgreesWithStore | src/components/notes/NotesList.tsx:45-53 | the view's test accepts a renamed note iff the store's filter accepts the stored note for the same query and toggle |
| NotesList.FilterKeepsServerAnswer | src/components/notes/NotesList.tsx:22-53 | filtering in the view what the server sent for the same query removes nothing |
| NotesList.ViewFilterEqualsServerFilter | src/components/notes/NotesList.tsx:45-53 | filtering the unfiltered server list in the view yields exactly the list the server sends for that query and toggle |
| NotesList.CountLabel | src/components/notes/NotesList.tsx:81 | the label starts with the count's decimal digits and ends in "s" iff the count differs from 1 |
| NotesList.CountLabelReadsBack | src/components/notes/NotesList.tsx:81 | the label's leading digits denote the count |
| DemoStore.ResolveCategory | src/store/demoStore.ts:126-127 | the category is the first one with the given id, and none iff the id is empty or matches no category |
| DemoStore.CreateNote | src/store/demoStore.ts:120-136 | the new note goes first and the old notes follow unchanged in order; its category is the resolved one and its tags are empty |
| DemoStore.UpdateNote | src/store/demoStore.ts:138-151 | length kept; notes with another id unchanged in place; matched notes get `updated_at` now; an unmatched id leaves the state unchanged |
| DemoStore.UpdatedNoteFields | src/store/demoStore.ts:141-147 | in an updated note, keys present in the patch take the patch's values, absent ones keep theirs, `updated_at` becomes now, and the category is re-resolved only for a non-empty `category_id` |
| DemoStore.ClearingCategoryIdKeepsCategory | src/store/demoStore.ts:145-147 | clearing `category_id` with an empty string keeps the old category object |
| DemoStore.DeleteNote | src/store/demoStore.ts:153-157 | removes every note with the id and keeps every copy of the others, in order |
| DemoStore.DeleteNoteIdempotent | src/store/demoStore.ts:153-157 | deleting the same id twice equals deleting it once |
| DemoStore.CreateCategory | src/store/demoStore.ts:163-176 | appends one category with the supplied fields and leaves the existing ones in place |
| DemoStore.CreateTag | src/store/demoStore.ts:182-195 | appends one tag with the supplied fields and leaves the existing ones in place |
| DemoStore.CreatedCategoryResolves | src/store/demoStore.ts:120-176 | a note created after a category with a fresh id, naming that id, embeds that category |

## Left out

- File I/O: reading and writing the JSON files, creating the data directory, `readFile` turning a read or parse error into an empty list, and concurrent writers overwriting each other. Each collection is a sequence in `FileDb.Db`.
- Id generation and clocks: `generateId`, `Date.now`, `Math.random` and `new Date()` are parameters. Ids are never checked for uniqueness by the code; where a lemma needs unique ids, it says so in its requires.
- FileDb.CreateUser: the two clock reads that set `createdAt` and `updatedAt` are one `now`, so the contract states both equal `now`. The TypeScript code reads the clock twice and guarantees only `createdAt <= updatedAt`.
- FileDb.CreateNote: the two clock reads are one `now`, as for `FileDb.CreateUser`; the code guarantees only `createdAt <= updatedAt`.
- FileDb.CreateCategory: the two clock reads are one `now`, as for `FileDb.CreateUser`; the code guarantees only `createdAt <= updatedAt`.
- NotesRoute.Post: inherits the single `now` of `FileDb.CreateNote` for both timestamps of the created note.
- CategoriesRoute.Post: inherits the single `now` of `FileDb.CreateCategory` for both timestamps of the created category.
- DemoStore.CreateNote: the two clock reads are one `now`; the code guarantees only `created_at <= updated_at`.
- DemoStore.CreateCategory: the two clock reads are one `now`; the code guarantees only `created_at <= updated_at`.
- DemoStore.CreateTag: the two clock reads are one `now`; the code guarantees only `created_at <= updated_at`.
- Timestamps are integers. ISO strings and `new Date(..).getTime()` are not modelled, including invalid dates.
- FileDb.CreateUser: states that the stored password is the hash function applied to the input. That it differs from the plaintext is a property of bcrypt, which is not modelled.
- `userDb.comparePassword` is a direct call into bcrypt and is not modelled.
- `toLowerCase` is ASCII-only. `localeCompare` is replaced by lexicographic order on character codes (`Text.Le`).
- JSON request fields are modelled only with their intended types: strings for `title`, `content`, `category_id`, `name`, `color`, and a boolean for `is_favorite`. Other JSON values, such as a truthy number as `title`, are not modelled. A body that fails to parse, or that cannot be destructured (such as `null`), is `Err` with the thrown message.
- Token extraction and verification and the user lookup inside `src/lib/auth-middleware.ts` call into JWT and database modules that are not part of this model. Only the outcome and its 401 answers are modelled.
- The `PUT`/`DELETE` handlers of `src/app/api/notes/[id]/route.ts`, the login and register handlers, and the mongoose schemas are not part of this model. The store functions they call are modelled.
- Demo store `fetchNotes`, `fetchCategories`, `fetchTags`, `setLoading` and `setError` only toggle UI flags or wait, so they are not modelled. The demo seed data is not modelled.
- Everything the notes list view renders besides the filtered list and the count label.
- Store operations throw only their modelled refusals, so the 500 answers of the `GET` handlers and the file-error branches of `POST` are not modelled. The `POST` catch blocks are reached through bodies that fail to parse and through the store's refusals.
