/** The add screen's Save: validate, read the list, put a fresh note in
    front of it and write it back. */
module AddNote {
  import opened NoteModel
  import opened Text
  import opened NoteForm
  import opened Storage
  import NoteCodec

  /** The note Save creates: the trimmed title, the body as typed, not
      pinned, created and updated at `now`. The id is the fresh value
      `generateUUID` returns. */
  function NewNote(id: string, title: string, body: string, now: int): Note
  {
    Note(id, Trim(title), body, false, now, now)
  }

  /** A note created from accepted input has a stored-form title, is not
      pinned, and was last updated when it was created. */
  lemma NewNoteShape(id: string, title: string, body: string, now: int)
    requires Validate(title, body) == Ok
    ensures var n := NewNote(id, title, body, now);
      && n.id == id && n.body == body && !n.pinned && n.createdAt == n.updatedAt == now
      && StoredTitle(n.title) && n.title == Trim(title)
  {
    AcceptedTitle(title, body);
  }

  /** The list Save writes: the new note followed by the existing notes. */
  function Prepended(n: Note, existing: seq<Note>): (r: seq<Note>)
    ensures |r| == |existing| + 1 && r[0] == n && r[1..] == existing
  {
    [n] + existing
  }

  /** Adding a note with a stored-form title keeps every title of the list
      in stored form. */
  lemma PrependKeepsTitles(n: Note, existing: seq<Note>)
    requires StoredTitle(n.title)
    requires forall i :: 0 <= i < |existing| ==> StoredTitle(existing[i].title)
    ensures var r := Prepended(n, existing);
      forall i :: 0 <= i < |r| ==> StoredTitle(r[i].title)
  {
    var r := Prepended(n, existing);
    forall i | 0 <= i < |r| ensures StoredTitle(r[i].title) {
      if i > 0 {
        assert r[i] == existing[i - 1];
      }
    }
  }

  /** `handleSave`. Invalid input is refused before the store is touched;
      a stored list that does not parse throws and is reported; otherwise
      the new note goes in front of the stored list, a missing list
      counting as empty. */
  method HandleSave(store: Store, id: string, title: string, body: string, now: int)
    returns (outcome: SaveOutcome)
    modifies store
    ensures Validate(title, body) != Ok ==>
      outcome == Rejected(Message(AddForm, Validate(title, body))) && store.entries == old(store.entries)
    ensures Validate(title, body) == Ok && NotesIn(old(store.entries)).Corrupt? ==>
      outcome == Failed(SaveFailed) && store.entries == old(store.entries)
    ensures Validate(title, body) == Ok && !NotesIn(old(store.entries)).Corrupt? ==>
      var next := Prepended(NewNote(id, title, body, now), OrEmpty(NotesIn(old(store.entries))));
      && outcome == Saved
      && store.entries == old(store.entries)[NotesKey := NoteCodec.Encode(next)]
      && NotesIn(store.entries) == Loaded(next)
  {
    var verdict := Validate(title, body);
    if verdict != Ok {
      return Rejected(Message(AddForm, verdict));
    }
    var existing := store.LoadNotes();
    if existing.Corrupt? {
      return Failed(SaveFailed);
    }
    var next := Prepended(NewNote(id, title, body, now), OrEmpty(existing));
    store.SaveNotes(next);
    outcome := Saved;
  }
}
