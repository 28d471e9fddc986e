/** The notes screen's state: the list it shows (`notes`), the note
    held for a one-shot undo (`deletedNote`) and the pull-to-refresh flag
    (`refreshing`), with the transitions that
    change them and write the list back to the store. */
module NotesScreen {
  import opened Wrappers
  import opened NoteModel
  import opened Seqs
  import opened Storage
  import NoteCodec
  import ListEngine

  const WelcomeBody: string :=
    "This is a sample note. Tap + to create a new note. You can pin, search, edit, and delete notes."
  const CardsBody: string :=
    "Notes are presented on rounded cards with subtle shadows and animations."
  const SearchBody: string :=
    "Type in the search bar and results update as you type (debounced)."

  /** The three notes written on the first run; every timestamp is `now`. */
  function SampleNotes(now: int): seq<Note>
  {
    [ Note("seed-1", "Welcome to RNNotes", WelcomeBody, true, now, now),
      Note("seed-2", "Material design cards", CardsBody, false, now, now),
      Note("seed-3", "Search is live", SearchBody, false, now, now) ]
  }

  /** The samples have distinct ids, only the first is pinned, and each was
      created and updated at the same instant. */
  lemma SampleNotesShape(now: int)
    ensures var r := SampleNotes(now);
      && |r| == 3
      && (forall i, j :: 0 <= i < j < |r| ==> r[i].id != r[j].id)
      && (forall i :: 0 <= i < |r| ==> (r[i].pinned <==> i == 0))
      && (forall i :: 0 <= i < |r| ==> r[i].createdAt == r[i].updatedAt == now)
  {
    var r := SampleNotes(now);
    assert r[0].id[5] == '1' && r[1].id[5] == '2' && r[2].id[5] == '3';
  }

  // ------------------------------------------------------------ transforms

  function OtherId(id: string): Note -> bool
  {
    (n: Note) => n.id != id
  }

  /** `notes.filter((n) => n.id !== id)`. */
  function WithoutId(notes: seq<Note>, id: string): seq<Note>
  {
    Keep(notes, OtherId(id))
  }

  /** The note after a pin toggle at instant `now`. */
  function PinToggled(n: Note, now: int): Note
  {
    n.(pinned := !n.pinned, updatedAt := now)
  }

  function TogglePinAt(now: int): Note -> Note
  {
    (n: Note) => PinToggled(n, now)
  }

  /** Deleting removes every note with the id and every copy of the others
      survives, in the original order. */
  lemma WithoutIdSpec(notes: seq<Note>, id: string, x: Note)
    ensures multiset(WithoutId(notes, id))[x] == if x.id == id then 0 else multiset(notes)[x]
    ensures !HasId(WithoutId(notes, id), id)
    ensures IsSubseq(WithoutId(notes, id), notes)
  {
    KeepCount(notes, OtherId(id), x);
    KeepIsSubseq(notes, OtherId(id));
    var r := WithoutId(notes, id);
    if HasId(r, id) {
      var i :| 0 <= i < |r| && r[i].id == id;
      KeepMember(notes, OtherId(id), r[i]);
    }
  }

  /** Deleting an id that no note carries leaves the list as it is. */
  lemma WithoutAbsentId(notes: seq<Note>, id: string)
    requires !HasId(notes, id)
    ensures WithoutId(notes, id) == notes
  {
    KeepAll(notes, OtherId(id));
  }

  /** A toggle flips `pinned` and stamps `updatedAt` on the notes with the
      id, and changes nothing else: not the other notes, not the length,
      not the order, and no other field. */
  lemma TogglePinSpec(notes: seq<Note>, id: string, now: int)
    ensures var r := UpdateWhere(notes, id, TogglePinAt(now));
      && |r| == |notes|
      && (forall i :: 0 <= i < |r| && notes[i].id != id ==> r[i] == notes[i])
      && (forall i :: 0 <= i < |r| && notes[i].id == id ==>
            r[i].pinned == !notes[i].pinned && r[i].updatedAt == now
            && r[i].id == id && r[i].title == notes[i].title && r[i].body == notes[i].body
            && r[i].createdAt == notes[i].createdAt)
  {
  }

  /** Toggling twice restores every `pinned` flag; only `updatedAt` moves on. */
  lemma TogglePinTwice(notes: seq<Note>, id: string, t1: int, t2: int)
    ensures var r := UpdateWhere(UpdateWhere(notes, id, TogglePinAt(t1)), id, TogglePinAt(t2));
      |r| == |notes| && forall i :: 0 <= i < |r| ==>
        r[i].pinned == notes[i].pinned
        && r[i] == (if notes[i].id == id then notes[i].(updatedAt := t2) else notes[i])
  {
    var once := UpdateWhere(notes, id, TogglePinAt(t1));
    var r := UpdateWhere(once, id, TogglePinAt(t2));
    forall i | 0 <= i < |r|
      ensures r[i] == (if notes[i].id == id then notes[i].(updatedAt := t2) else notes[i])
    {
      assert once[i].id == notes[i].id;
    }
  }

  /** With one note carrying the id, deleting it leaves the notes before
      it followed by the notes after it. */
  lemma WithoutUniqueId(notes: seq<Note>, id: string, k: nat)
    requires k < |notes| && notes[k].id == id
    requires forall i :: 0 <= i < |notes| && i != k ==> notes[i].id != id
    ensures WithoutId(notes, id) == notes[..k] + notes[k + 1..]
  {
    var before, after := notes[..k], notes[k + 1..];
    assert notes == before + ([notes[k]] + after);
    KeepConcat(before, [notes[k]] + after, OtherId(id));
    KeepConcat([notes[k]], after, OtherId(id));
    assert Keep([notes[k]], OtherId(id)) == [] by {
      assert [notes[k]][1..] == [];
    }
    assert !HasId(before, id) by {
      forall i | 0 <= i < |before| ensures before[i].id != id {
        assert before[i] == notes[i];
      }
    }
    assert !HasId(after, id) by {
      forall i | 0 <= i < |after| ensures after[i].id != id {
        assert after[i] == notes[k + 1 + i];
      }
    }
    WithoutAbsentId(before, id);
    WithoutAbsentId(after, id);
  }

  /** When no two notes share the id, the first one carrying it is the only one. */
  lemma OnlyAtFirst(notes: seq<Note>, id: string)
    requires HasId(notes, id)
    requires forall i, j :: 0 <= i < j < |notes| && notes[i].id == id ==> notes[j].id != id
    ensures FirstIndexOf(notes, id) < |notes|
    ensures forall i :: 0 <= i < |notes| && i != FirstIndexOf(notes, id) ==> notes[i].id != id
  {
    var k := FirstIndexOf(notes, id);
    var j :| 0 <= j < |notes| && notes[j].id == id;
  }

  /** Deleting the only note with an id and undoing brings back the same
      notes, as a multiset, with the deleted one moved to the front. */
  lemma DeleteUndoPermutes(notes: seq<Note>, id: string)
    requires HasId(notes, id)
    requires forall i, j :: 0 <= i < j < |notes| && notes[i].id == id ==> notes[j].id != id
    ensures var k := FirstIndexOf(notes, id);
      [FindById(notes, id).value] + WithoutId(notes, id) == [notes[k]] + (notes[..k] + notes[k + 1..])
    ensures multiset([FindById(notes, id).value] + WithoutId(notes, id)) == multiset(notes)
  {
    OnlyAtFirst(notes, id);
    var k := FirstIndexOf(notes, id);
    WithoutUniqueId(notes, id, k);
    MoveToFrontPermutes(notes, k);
  }

  /** When the deleted note was the first one, undo restores the list
      exactly; from any later position it comes back at the front. */
  lemma DeleteUndoFirst(notes: seq<Note>, id: string)
    requires notes != [] && notes[0].id == id
    requires forall i :: 1 <= i < |notes| ==> notes[i].id != id
    ensures [FindById(notes, id).value] + WithoutId(notes, id) == notes
  {
    WithoutUniqueId(notes, id, 0);
    assert notes == [notes[0]] + notes[1..];
  }

  // ------------------------------------------------------------ the screen

  class NotesList {
    var notes: seq<Note>
    var deletedNote: Option<Note>
    var refreshing: bool

    /** The screen mounts with an empty list, nothing to undo and no
        refresh under way. */
    constructor ()
      ensures notes == [] && deletedNote.None? && !refreshing
    {
      notes := [];
      deletedNote := None;
      refreshing := false;
    }

    /** The list the screen renders for a search text and a sort mode. */
    function Shown(query: string, mode: ListEngine.SortMode): seq<Note>
      reads this
    {
      ListEngine.Filtered(notes, query, mode)
    }

    /** The first-run branch of `load`: write the list, set the flag, show the list. */
    method Seed(store: Store, list: seq<Note>)
      modifies this, store
      ensures store.entries == old(store.entries)[NotesKey := NoteCodec.Encode(list)][SeededKey := "1"]
      ensures notes == list && deletedNote == old(deletedNote) && refreshing == old(refreshing)
      ensures NotesIn(store.entries) == Loaded(list) && SeededIn(store.entries)
    {
      store.SaveNotes(list);
      store.MarkSeeded();
      KeysIndependent(old(store.entries)[NotesKey := NoteCodec.Encode(list)], "1");
      notes := list;
    }

    /** `load`: on the first run, write the sample notes, set the flag and
        show them; afterwards show what is stored, a missing list as empty.
        A stored list that does not parse throws, and nothing changes. */
    method Load(store: Store, now: int)
      modifies this, store
      ensures deletedNote == old(deletedNote) && refreshing == old(refreshing)
      ensures !SeededIn(old(store.entries)) ==>
        && store.entries == old(store.entries)[NotesKey := NoteCodec.Encode(SampleNotes(now))][SeededKey := "1"]
        && notes == SampleNotes(now)
      ensures SeededIn(old(store.entries)) ==>
        && store.entries == old(store.entries)
        && notes == (if NotesIn(store.entries).Corrupt? then old(notes) else OrEmpty(NotesIn(store.entries)))
      ensures SeededIn(store.entries)
      ensures match NotesIn(store.entries)
        case Loaded(xs) => notes == xs
        case Missing => notes == []
        case Corrupt => notes == old(notes)
    {
      var seeded := store.HasSeeded();
      if !seeded {
        Seed(store, SampleNotes(now));
        return;
      }
      var data := store.LoadNotes();
      if !data.Corrupt? {
        notes := OrEmpty(data);
      }
    }

    /** `saveAndSet`: show the list and write it. */
    method SaveAndSet(store: Store, list: seq<Note>)
      modifies this, store
      ensures notes == list && deletedNote == old(deletedNote) && refreshing == old(refreshing)
      ensures store.entries == old(store.entries)[NotesKey := NoteCodec.Encode(list)]
      ensures NotesIn(store.entries) == Loaded(notes)
    {
      notes := list;
      store.SaveNotes(list);
    }

    /** `handleDelete`: with no note carrying the id nothing happens;
        otherwise the first such note is held for undo and every note with
        the id is removed. */
    method HandleDelete(store: Store, id: string)
      modifies this, store
      ensures refreshing == old(refreshing)
      ensures !HasId(old(notes), id) ==>
        notes == old(notes) && deletedNote == old(deletedNote) && store.entries == old(store.entries)
      ensures HasId(old(notes), id) ==>
        && deletedNote == FindById(old(notes), id)
        && notes == WithoutId(old(notes), id)
        && store.entries == old(store.entries)[NotesKey := NoteCodec.Encode(notes)]
    {
      var note := FindById(notes, id);
      if note.None? {
        return;
      }
      var next := WithoutId(notes, id);
      deletedNote := note;
      SaveAndSet(store, next);
    }

    /** `undoDelete`: with nothing held nothing happens; otherwise the held
        note goes to the front of the current list and is released, so a
        second undo does nothing. */
    method UndoDelete(store: Store)
      modifies this, store
      ensures deletedNote.None? && refreshing == old(refreshing)
      ensures old(deletedNote).None? ==> notes == old(notes) && store.entries == old(store.entries)
      ensures old(deletedNote).Some? ==>
        && notes == [old(deletedNote).value] + old(notes)
        && store.entries == old(store.entries)[NotesKey := NoteCodec.Encode(notes)]
    {
      if deletedNote.None? {
        return;
      }
      SaveAndSet(store, [deletedNote.value] + notes);
      deletedNote := None;
    }

    /** `togglePin`: flips the pin of the notes with the id, stamped `now`. */
    method TogglePin(store: Store, id: string, now: int)
      modifies this, store
      ensures notes == UpdateWhere(old(notes), id, TogglePinAt(now))
      ensures deletedNote == old(deletedNote) && refreshing == old(refreshing)
      ensures store.entries == old(store.entries)[NotesKey := NoteCodec.Encode(notes)]
    {
      var next := UpdateWhere(notes, id, TogglePinAt(now));
      SaveAndSet(store, next);
    }

    /** `onRefresh`: raise the refresh flag, reload from the store (a
        missing list as empty) and lower the flag. A stored list that does
        not parse throws after the flag was raised, so the list stays as it
        was and the flag stays up. */
    method OnRefresh(store: Store)
      modifies this
      ensures deletedNote == old(deletedNote)
      ensures refreshing <==> NotesIn(store.entries).Corrupt?
      ensures match NotesIn(store.entries)
        case Loaded(xs) => notes == xs
        case Missing => notes == []
        case Corrupt => notes == old(notes)
    {
      refreshing := true;
      var data := store.LoadNotes();
      if data.Corrupt? {
        return;
      }
      notes := OrEmpty(data);
      refreshing := false;
    }
  }
}
