/** The edit screen: the form is filled from the note with the route's id,
    and Save rewrites that note in the stored list. */
module EditNote {
  import opened Wrappers
  import opened NoteModel
  import opened Text
  import opened NoteForm
  import opened Storage
  import NoteCodec

  /** The note an edit turns `n` into: new trimmed title and body, stamped
      `now`; id, pin and creation time kept. */
  function Edited(n: Note, title: string, body: string, now: int): Note
  {
    n.(title := Trim(title), body := body, updatedAt := now)
  }

  function EditAt(title: string, body: string, now: int): Note -> Note
  {
    (n: Note) => Edited(n, title, body, now)
  }

  /** `all.map(...)`: the list Save writes. */
  function EditedNotes(notes: seq<Note>, noteId: string, title: string, body: string, now: int): seq<Note>
  {
    UpdateWhere(notes, noteId, EditAt(title, body, now))
  }

  /** The note the form is filled from: the first with the id in the
      stored list, or none when there is none or the list does not parse. */
  function Prefill(loaded: LoadResult, noteId: string): (r: Option<Note>)
    ensures r.None? <==> loaded.Corrupt? || loaded.Missing? || !HasId(loaded.notes, noteId)
    ensures r.Some? ==> loaded.Loaded? && r.value.id == noteId
    ensures r.Some? ==>
      exists k :: 0 <= k < |loaded.notes| && loaded.notes[k] == r.value &&
        forall j :: 0 <= j < k ==> loaded.notes[j].id != noteId
  {
    if loaded.Corrupt? then None
    else
      var found := FindById(OrEmpty(loaded), noteId);
      if found.Some? then
        var k := FirstIndexOf(loaded.notes, noteId);
        assert loaded.notes[k] == found.value;
        found
      else found
  }

  /** Only the notes with the id change; each gets the trimmed title, the
      new body and `updatedAt = now`, and keeps its id, pin and creation
      time. Length and order are kept. */
  lemma EditedNotesSpec(notes: seq<Note>, noteId: string, title: string, body: string, now: int)
    ensures var r := EditedNotes(notes, noteId, title, body, now);
      && |r| == |notes|
      && (forall i :: 0 <= i < |r| && notes[i].id != noteId ==> r[i] == notes[i])
      && (forall i :: 0 <= i < |r| && notes[i].id == noteId ==>
            && r[i].id == noteId && r[i].pinned == notes[i].pinned
            && r[i].createdAt == notes[i].createdAt
            && r[i].title == Trim(title) && r[i].body == body && r[i].updatedAt == now)
  {
  }

  /** An id no note carries leaves the list as loaded. */
  lemma EditAbsent(notes: seq<Note>, noteId: string, title: string, body: string, now: int)
    requires !HasId(notes, noteId)
    ensures EditedNotes(notes, noteId, title, body, now) == notes
  {
    UpdateAbsent(notes, noteId, EditAt(title, body, now));
  }

  /** An accepted edit keeps every title of the list in stored form. */
  lemma EditKeepsTitles(notes: seq<Note>, noteId: string, title: string, body: string, now: int)
    requires Validate(title, body) == Ok
    requires forall i :: 0 <= i < |notes| ==> StoredTitle(notes[i].title)
    ensures var r := EditedNotes(notes, noteId, title, body, now);
      forall i :: 0 <= i < |r| ==> StoredTitle(r[i].title)
  {
    AcceptedTitle(title, body);
  }

  class EditNoteForm {
    const noteId: string
    var note: Option<Note>
    var title: string
    var body: string

    /** The screen opens with no note and empty fields; it shows nothing
        until a note is found. */
    constructor (noteId: string)
      ensures this.noteId == noteId && note.None? && title == [] && body == []
    {
      this.noteId := noteId;
      note := None;
      title := [];
      body := [];
    }

    /** The load effect: fill the form from the first note with the id;
        with none (or a list that does not parse) nothing changes. */
    method Load(store: Store)
      modifies this
      ensures var found := Prefill(NotesIn(store.entries), noteId);
        if found.Some? then note == found && title == found.value.title && body == found.value.body
        else note == old(note) && title == old(title) && body == old(body)
    {
      var data := store.LoadNotes();
      if data.Corrupt? {
        return;
      }
      var found := FindById(OrEmpty(data), noteId);
      if found.Some? {
        note := found;
        title := found.value.title;
        body := found.value.body;
      }
    }

    /** `handleSave`. Invalid input is refused before the store is touched;
        a stored list that does not parse throws and is reported; otherwise
        the edit is mapped over the stored list, a missing list counting as
        empty. */
    method HandleSave(store: Store, now: int) returns (outcome: SaveOutcome)
      modifies store
      ensures Validate(title, body) != Ok ==>
        outcome == Rejected(Message(EditForm, Validate(title, body))) && store.entries == old(store.entries)
      ensures Validate(title, body) == Ok && NotesIn(old(store.entries)).Corrupt? ==>
        outcome == Failed(SaveFailed) && store.entries == old(store.entries)
      ensures Validate(title, body) == Ok && !NotesIn(old(store.entries)).Corrupt? ==>
        var next := EditedNotes(OrEmpty(NotesIn(old(store.entries))), noteId, title, body, now);
        && outcome == Saved
        && store.entries == old(store.entries)[NotesKey := NoteCodec.Encode(next)]
        && NotesIn(store.entries) == Loaded(next)
    {
      var verdict := Validate(title, body);
      if verdict != Ok {
        return Rejected(Message(EditForm, verdict));
      }
      var all := store.LoadNotes();
      if all.Corrupt? {
        return Failed(SaveFailed);
      }
      var next := EditedNotes(OrEmpty(all), noteId, title, body, now);
      store.SaveNotes(next);
      outcome := Saved;
    }
  }
}
