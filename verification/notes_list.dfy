/**
 * The notes list view: it filters the notes the `GET` handler sent by the
 * search box and the favourites toggle, and labels the count.
 */
module NotesList {
  import opened Common
  import opened Seqs
  import opened Api
  import Text
  import Sorting
  import FileDb
  import NotesRoute

  /** The view's search test: an empty query, or the lowered query in the lowered title or content. */
  predicate MatchesSearch(note: NoteJson, searchQuery: string) {
    || searchQuery == ""
    || Text.Includes(Text.Lower(note.title), Text.Lower(searchQuery))
    || Text.Includes(Text.Lower(note.content), Text.Lower(searchQuery))
  }

  /** The view's search test in positional terms. */
  lemma MatchesSearchIffOccurs(note: NoteJson, searchQuery: string)
    ensures MatchesSearch(note, searchQuery) <==> (
      || searchQuery == ""
      || (exists i :: Text.OccursAt(Text.Lower(note.title), Text.Lower(searchQuery), i))
      || (exists i :: Text.OccursAt(Text.Lower(note.content), Text.Lower(searchQuery), i)))
  {
    var t, c, q := Text.Lower(note.title), Text.Lower(note.content), Text.Lower(searchQuery);
    Text.IncludesIffOccurs(t, q);
    Text.IncludesIffOccurs(c, q);
    if searchQuery != "" && Text.Includes(t, q) {
      var i :| Text.OccursAt(t, q, i);
      assert exists k :: Text.OccursAt(Text.Lower(note.title), Text.Lower(searchQuery), k);
    } else if searchQuery != "" && Text.Includes(c, q) {
      var i :| Text.OccursAt(c, q, i);
      assert exists k :: Text.OccursAt(Text.Lower(note.content), Text.Lower(searchQuery), k);
    }
  }

  predicate Matches(note: NoteJson, searchQuery: string, filterFavorites: bool) {
    MatchesSearch(note, searchQuery) && (!filterFavorites || note.is_favorite)
  }

  function Keeps(searchQuery: string, filterFavorites: bool): NoteJson -> bool {
    (n: NoteJson) => Matches(n, searchQuery, filterFavorites)
  }

  /** `filteredNotes`: the notes that match, in their original order. */
  function FilteredNotes(notes: seq<NoteJson>, searchQuery: string, filterFavorites: bool): (r: seq<NoteJson>)
    ensures IsSubseq(r, notes)
    ensures forall i :: 0 <= i < |r| ==> r[i] in notes && Matches(r[i], searchQuery, filterFavorites)
    ensures forall i :: 0 <= i < |notes| && Matches(notes[i], searchQuery, filterFavorites) ==> notes[i] in r
    ensures filterFavorites ==> forall i :: 0 <= i < |r| ==> r[i].is_favorite
    ensures forall x :: multiset(r)[x] == if Matches(x, searchQuery, filterFavorites) then multiset(notes)[x] else 0
    ensures searchQuery == "" && !filterFavorites ==> r == notes
  {
    FilterIsSubseq(notes, Keeps(searchQuery, filterFavorites));
    FilterCounts(notes, Keeps(searchQuery, filterFavorites));
    if searchQuery == "" && !filterFavorites then
      FilterKeepsAll(notes, Keeps(searchQuery, filterFavorites));
      Filter(notes, Keeps(searchQuery, filterFavorites))
    else
      Filter(notes, Keeps(searchQuery, filterFavorites))
  }

  /** Filtering an already filtered list changes nothing. */
  lemma FilteredNotesIdempotent(notes: seq<NoteJson>, searchQuery: string, filterFavorites: bool)
    ensures var once := FilteredNotes(notes, searchQuery, filterFavorites);
      FilteredNotes(once, searchQuery, filterFavorites) == once
  {
    FilterIdempotent(notes, Keeps(searchQuery, filterFavorites));
  }

  /** The query the view sends for its search box and toggle: each parameter only when set. */
  function RequestFor(searchQuery: string, filterFavorites: bool): (q: NotesRoute.Query)
    ensures NotesRoute.SearchParam(q) == (if searchQuery == "" then None else Some(searchQuery))
    ensures NotesRoute.FavoritesParam(q) == filterFavorites
  {
    NotesRoute.Query(if searchQuery == "" then None else Some(searchQuery),
                     if filterFavorites then Some("true") else None)
  }

  /** The view's test on a renamed note is the store's test on the stored note. */
  lemma MatchesAgreesWithStore(db: FileDb.Db, n: FileDb.Note, searchQuery: string, filterFavorites: bool)
    ensures Matches(NotesRoute.ToJson(db, n), searchQuery, filterFavorites)
        <==> FileDb.Accepts(n, n.userId, NotesRoute.SearchParam(RequestFor(searchQuery, filterFavorites)), filterFavorites)
  {
  }

  function Notes(r: Response): seq<NoteJson> {
    if r.body.NotesBody? then r.body.notes else []
  }

  /** Filtering what the server sent for the same query keeps every note. */
  lemma {:induction false} FilterKeepsServerAnswer(db: FileDb.Db, userId: string, searchQuery: string, filterFavorites: bool)
    ensures var sent := Notes(NotesRoute.Get(db, Authenticated(userId), RequestFor(searchQuery, filterFavorites)));
      FilteredNotes(sent, searchQuery, filterFavorites) == sent
  {
    var q := RequestFor(searchQuery, filterFavorites);
    var found := FileDb.FindNotesByUser(db, userId, NotesRoute.SearchParam(q), filterFavorites);
    var sent := Notes(NotesRoute.Get(db, Authenticated(userId), q));
    forall i | 0 <= i < |sent|
      ensures Keeps(searchQuery, filterFavorites)(sent[i])
    {
      MatchesAgreesWithStore(db, found[i], searchQuery, filterFavorites);
    }
    FilterKeepsAll(sent, Keeps(searchQuery, filterFavorites));
  }

  /**
   * Filtering in the view the caller's unfiltered list gives exactly the
   * list the server sends when asked with the same search and toggle.
   */
  lemma {:induction false} ViewFilterEqualsServerFilter(db: FileDb.Db, userId: string, searchQuery: string, filterFavorites: bool)
    ensures FilteredNotes(Notes(NotesRoute.Get(db, Authenticated(userId), RequestFor("", false))), searchQuery, filterFavorites)
         == Notes(NotesRoute.Get(db, Authenticated(userId), RequestFor(searchQuery, filterFavorites)))
  {
    var search := NotesRoute.SearchParam(RequestFor(searchQuery, filterFavorites));
    var all := Filter(db.notes, FileDb.Accepted(userId, None, false));
    var narrow := FileDb.Accepted(userId, search, filterFavorites);
    var extra := (n: FileDb.Note) => FileDb.Accepts(n, n.userId, search, filterFavorites);
    // the view's test pulled back to stored notes
    forall i | 0 <= i < |FileDb.FindNotesByUser(db, userId, None, false)|
      ensures Keeps(searchQuery, filterFavorites)(NotesRoute.Transform(db)(FileDb.FindNotesByUser(db, userId, None, false)[i]))
           == extra(FileDb.FindNotesByUser(db, userId, None, false)[i])
    {
      MatchesAgreesWithStore(db, FileDb.FindNotesByUser(db, userId, None, false)[i], searchQuery, filterFavorites);
    }
    FilterMap(FileDb.FindNotesByUser(db, userId, None, false), NotesRoute.Transform(db), Keeps(searchQuery, filterFavorites), extra);
    // filtering commutes with the stable sort
    Sorting.FilterSortDesc(all, FileDb.UpdatedAt, extra);
    FilterCompose(db.notes, FileDb.Accepted(userId, None, false), extra, narrow);
  }

  /** The header's `N note` / `N notes` label. */
  function CountLabel(count: nat): (r: string)
    ensures |r| > |Text.Decimal(count)| && r[..|Text.Decimal(count)|] == Text.Decimal(count)
    ensures r[|r| - 1] == 's' <==> count != 1
  {
    var digits := Text.Decimal(count);
    var r := digits + " note" + (if count != 1 then "s" else "");
    assert r[..|digits|] == digits;
    r
  }

  /** The label's leading digits read back as the count. */
  lemma CountLabelReadsBack(count: nat)
    ensures var r := CountLabel(count);
      var digits := r[..|Text.Decimal(count)|];
      (forall i :: 0 <= i < |digits| ==> Text.IsDigit(digits[i])) && Text.DigitsValue(digits) == count
  {
    Text.DecimalRoundTrip(count);
  }
}
