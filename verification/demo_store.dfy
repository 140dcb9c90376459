/**
 * The in-memory demo store used without a backend: notes, categories and
 * tags held in lists that each action replaces. Ids and timestamps are
 * supplied by the caller.
 */
module DemoStore {
  import opened Common
  import opened Seqs

  datatype Category = Category(
    id: string,
    name: string,
    color: string,
    user_id: string,
    created_at: int,
    updated_at: int)

  datatype Tag = Tag(id: string, name: string, user_id: string, created_at: int, updated_at: int)

  datatype Note = Note(
    id: string,
    title: string,
    content: string,
    user_id: string,
    category_id: Option<string>,
    is_favorite: bool,
    created_at: int,
    updated_at: int,
    category: Option<Category>,
    tags: seq<Tag>)

  /** The fields a caller supplies to `createNote`; `category` and `tags` are always recomputed. */
  datatype NewNote = NewNote(
    title: string,
    content: string,
    user_id: string,
    category_id: Option<string>,
    is_favorite: bool)

  /**
   * A `Partial<Note>` passed to `updateNote`: `Some(v)` marks a key present
   * with value `v`. `updated_at` and `category` keys are not represented
   * because the update always overwrites both.
   */
  datatype NotePatch = NotePatch(
    id: Option<string>,
    title: Option<string>,
    content: Option<string>,
    user_id: Option<string>,
    category_id: Option<Option<string>>,
    is_favorite: Option<bool>,
    created_at: Option<int>,
    tags: Option<seq<Tag>>)

  datatype NewCategory = NewCategory(name: string, color: string, user_id: string)

  datatype NewTag = NewTag(name: string, user_id: string)

  datatype State = State(notes: seq<Note>, categories: seq<Category>, tags: seq<Tag>)

  /** The state after an action, and the record the action returns. */
  datatype Created<T> = Created(state: State, value: T)

  function HasId(id: string): Category -> bool {
    (c: Category) => c.id == id
  }

  /** The category a note names: the first one with that id, and none for an empty or unmatched id. */
  function ResolveCategory(categories: seq<Category>, categoryId: Option<string>): (r: Option<Category>)
    ensures r.Some? ==> Present(categoryId) && r.value in categories && r.value.id == categoryId.value
    ensures r.None? <==> !Present(categoryId) || forall i :: 0 <= i < |categories| ==> categories[i].id != categoryId.value
    ensures r.Some? ==> exists i ::
      && 0 <= i < |categories| && categories[i] == r.value
      && forall j :: 0 <= j < i ==> categories[j].id != categoryId.value
  {
    if Present(categoryId) then Find(categories, HasId(categoryId.value)) else None
  }

  /** `createNote`: builds the note with no tags and its category resolved, and puts it first. */
  function CreateNote(st: State, data: NewNote, id: string, now: int): (r: Created<Note>)
    ensures r.state == st.(notes := [r.value] + st.notes)
    ensures |r.state.notes| == |st.notes| + 1 && r.state.notes[1..] == st.notes
    ensures r.value.id == id && r.value.title == data.title && r.value.content == data.content
    ensures r.value.user_id == data.user_id && r.value.category_id == data.category_id
    ensures r.value.is_favorite == data.is_favorite
    ensures r.value.created_at == now && r.value.updated_at == now
    ensures r.value.category == ResolveCategory(st.categories, data.category_id)
    ensures r.value.tags == []
  {
    var note := Note(id, data.title, data.content, data.user_id, data.category_id, data.is_favorite,
                     now, now, ResolveCategory(st.categories, data.category_id), []);
    Created(st.(notes := [note] + st.notes), note)
  }

  /**
   * The object spread of `updateNote`: keys present in the patch
   * overwrite, the timestamp is renewed, and the category is resolved again
   * only for a non-empty `category_id` in the patch.
   */
  function Patch(n: Note, p: NotePatch, now: int, categories: seq<Category>): Note {
    Note(p.id.GetOr(n.id), p.title.GetOr(n.title), p.content.GetOr(n.content),
         p.user_id.GetOr(n.user_id), p.category_id.GetOr(n.category_id),
         p.is_favorite.GetOr(n.is_favorite), p.created_at.GetOr(n.created_at), now,
         if p.category_id.Some? && Present(p.category_id.value)
         then ResolveCategory(categories, p.category_id.value)
         else n.category,
         p.tags.GetOr(n.tags))
  }

  function PatchIfId(id: string, p: NotePatch, now: int, categories: seq<Category>): Note -> Note {
    (n: Note) => if n.id == id then Patch(n, p, now, categories) else n
  }

  /** `updateNote`: patches every note with this id and leaves the others where they are. */
  function UpdateNote(st: State, id: string, p: NotePatch, now: int): (r: State)
    ensures r.categories == st.categories && r.tags == st.tags
    ensures |r.notes| == |st.notes|
    ensures forall i :: 0 <= i < |st.notes| && st.notes[i].id != id ==> r.notes[i] == st.notes[i]
    ensures forall i :: 0 <= i < |st.notes| && st.notes[i].id == id ==> r.notes[i].updated_at == now
    ensures (forall i :: 0 <= i < |st.notes| ==> st.notes[i].id != id) ==> r == st
  {
    var notes := Map(st.notes, PatchIfId(id, p, now, st.categories));
    assert (forall i :: 0 <= i < |st.notes| ==> st.notes[i].id != id) ==> notes == st.notes;
    st.(notes := notes)
  }

  /**
   * In a patched note, keys present in the patch take the patch's values,
   * keys absent from it keep theirs, `updated_at` becomes now, and the
   * category object is replaced only when the patch has a non-empty
   * `category_id`.
   */
  lemma UpdatedNoteFields(st: State, id: string, p: NotePatch, now: int, i: nat)
    requires i < |st.notes| && st.notes[i].id == id
    ensures var n := st.notes[i];
      var m := UpdateNote(st, id, p, now).notes[i];
      && (p.id.None? ==> m.id == id)
      && (p.title.None? ==> m.title == n.title)
      && (p.content.None? ==> m.content == n.content)
      && (p.user_id.None? ==> m.user_id == n.user_id)
      && (p.category_id.None? ==> m.category_id == n.category_id)
      && (p.is_favorite.None? ==> m.is_favorite == n.is_favorite)
      && (p.created_at.None? ==> m.created_at == n.created_at)
      && (p.tags.None? ==> m.tags == n.tags)
      && (p.title.Some? ==> m.title == p.title.value)
      && (p.content.Some? ==> m.content == p.content.value)
      && (p.is_favorite.Some? ==> m.is_favorite == p.is_favorite.value)
      && (p.id.Some? ==> m.id == p.id.value)
      && (p.user_id.Some? ==> m.user_id == p.user_id.value)
      && (p.category_id.Some? ==> m.category_id == p.category_id.value)
      && (p.created_at.Some? ==> m.created_at == p.created_at.value)
      && (p.tags.Some? ==> m.tags == p.tags.value)
      && m.updated_at == now
      && ((p.category_id.Some? && Present(p.category_id.value)) ==>
            m.category == ResolveCategory(st.categories, p.category_id.value))
      && (!(p.category_id.Some? && Present(p.category_id.value)) ==> m.category == n.category)
  {
  }

  /**
   * Clearing `category_id` with an empty string keeps the old category
   * object, so the note names no category id but still shows a category.
   */
  lemma ClearingCategoryIdKeepsCategory(st: State, id: string, p: NotePatch, now: int, i: nat)
    requires i < |st.notes| && st.notes[i].id == id && st.notes[i].category.Some?
    requires p.category_id == Some(Some(""))
    ensures var m := UpdateNote(st, id, p, now).notes[i];
      !Present(m.category_id) && m.category == st.notes[i].category
  {
  }

  function IdIsNot(id: string): Note -> bool {
    (n: Note) => n.id != id
  }

  /** `deleteNote`: drops every note with this id and keeps the rest in order. */
  function DeleteNote(st: State, id: string): (r: State)
    ensures r.categories == st.categories && r.tags == st.tags
    ensures IsSubseq(r.notes, st.notes)
    ensures forall i :: 0 <= i < |r.notes| ==> r.notes[i].id != id && r.notes[i] in st.notes
    ensures forall i :: 0 <= i < |st.notes| && st.notes[i].id != id ==> st.notes[i] in r.notes
    ensures forall x :: multiset(r.notes)[x] == if x.id != id then multiset(st.notes)[x] else 0
  {
    FilterIsSubseq(st.notes, IdIsNot(id));
    FilterCounts(st.notes, IdIsNot(id));
    st.(notes := Filter(st.notes, IdIsNot(id)))
  }

  /** Deleting the same id twice is deleting it once. */
  lemma DeleteNoteIdempotent(st: State, id: string)
    ensures DeleteNote(DeleteNote(st, id), id) == DeleteNote(st, id)
  {
    FilterIdempotent(st.notes, IdIsNot(id));
  }

  /** `createCategory`: appends the category and leaves the existing ones in place. */
  function CreateCategory(st: State, data: NewCategory, id: string, now: int): (r: Created<Category>)
    ensures r.state == st.(categories := st.categories + [r.value])
    ensures |r.state.categories| == |st.categories| + 1 && r.state.categories[..|st.categories|] == st.categories
    ensures r.value.id == id && r.value.name == data.name && r.value.color == data.color
    ensures r.value.user_id == data.user_id && r.value.created_at == now && r.value.updated_at == now
  {
    var category := Category(id, data.name, data.color, data.user_id, now, now);
    Created(st.(categories := st.categories + [category]), category)
  }

  /** `createTag`: appends the tag and leaves the existing ones in place. */
  function CreateTag(st: State, data: NewTag, id: string, now: int): (r: Created<Tag>)
    ensures r.state == st.(tags := st.tags + [r.value])
    ensures |r.state.tags| == |st.tags| + 1 && r.state.tags[..|st.tags|] == st.tags
    ensures r.value.id == id && r.value.name == data.name && r.value.user_id == data.user_id
    ensures r.value.created_at == now && r.value.updated_at == now
  {
    var tag := Tag(id, data.name, data.user_id, now, now);
    Created(st.(tags := st.tags + [tag]), tag)
  }

  /** A category created under a fresh id is what a note created afterwards with that id resolves to. */
  lemma {:induction false} CreatedCategoryResolves(st: State, data: NewCategory, id: string, now: int,
                                                  note: NewNote, noteId: string, later: int)
    requires id != "" && note.category_id == Some(id)
    requires forall i :: 0 <= i < |st.categories| ==> st.categories[i].id != id
    ensures var c := CreateCategory(st, data, id, now);
      CreateNote(c.state, note, noteId, later).value.category == Some(c.value)
  {
    var c := CreateCategory(st, data, id, now);
    var cats := c.state.categories;
    assert cats[|st.categories|] == c.value;
    var found := ResolveCategory(cats, note.category_id);
    assert found.Some?;
    var k :| 0 <= k < |cats| && cats[k] == found.value
      && forall j :: 0 <= j < k ==> cats[j].id != id;
    assert k == |st.categories|;
  }
}
