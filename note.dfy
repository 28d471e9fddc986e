/** The note record and the per-id look-ups and updates the screens share. */
module NoteModel {
  import opened Wrappers

  /** A note. Timestamps are the instants the source writes as ISO-8601
      strings, taken here as integers (milliseconds). */
  datatype Note = Note(
    id: string,
    title: string,
    body: string,
    pinned: bool,
    createdAt: int,
    updatedAt: int)

  ghost predicate HasId(notes: seq<Note>, id: string)
  {
    exists i :: 0 <= i < |notes| && notes[i].id == id
  }

  /** The position of the first note with this id, or `|notes|` if none. */
  function FirstIndexOf(notes: seq<Note>, id: string): (k: nat)
    ensures k <= |notes|
    ensures k < |notes| ==> notes[k].id == id
    ensures forall i :: 0 <= i < k ==> notes[i].id != id
  {
    if notes == [] then 0
    else if notes[0].id == id then 0
    else 1 + FirstIndexOf(notes[1..], id)
  }

  /** `notes.find((n) => n.id === id)`. */
  function FindById(notes: seq<Note>, id: string): (r: Option<Note>)
    ensures r.None? <==> !HasId(notes, id)
    ensures r.Some? ==> r.value.id == id && r.value == notes[FirstIndexOf(notes, id)]
  {
    var k := FirstIndexOf(notes, id);
    if k < |notes| then Some(notes[k]) else None
  }

  /** `notes.map((n) => n.id === id ? f(n) : n)`: rewrites every note with
      this id and leaves the others, the length and the order alone. */
  function UpdateWhere(notes: seq<Note>, id: string, f: Note -> Note): (r: seq<Note>)
    ensures |r| == |notes|
    ensures forall i :: 0 <= i < |notes| ==>
      r[i] == if notes[i].id == id then f(notes[i]) else notes[i]
  {
    if notes == [] then []
    else [if notes[0].id == id then f(notes[0]) else notes[0]] + UpdateWhere(notes[1..], id, f)
  }

  /** With no note carrying the id, the update is the identity. */
  lemma UpdateAbsent(notes: seq<Note>, id: string, f: Note -> Note)
    requires !HasId(notes, id)
    ensures UpdateWhere(notes, id, f) == notes
  {
    var r := UpdateWhere(notes, id, f);
    forall i | 0 <= i < |notes| ensures r[i] == notes[i] {
      assert notes[i].id != id;
    }
  }
}
