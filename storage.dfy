/** The persistence wrapper: three fixed keys of the device's key-value
    store. The pure functions read what each getter returns from the
    store's contents; the class performs the reads and writes. */
module Storage {
  import opened Wrappers
  import opened NoteModel
  import NoteCodec

  const NotesKey: string := "@rnnotes_notes_v1"
  const ThemeOverrideKey: string := "@rnnotes_theme_override_v1"
  const SeededKey: string := "@rnnotes_seeded_v1"

  const LightName: string := "light"
  const DarkName: string := "dark"

  /** The values the theme override is declared to take: 'light', 'dark' or null. */
  predicate IsOverride(v: Option<string>)
  {
    v.None? || v.value == LightName || v.value == DarkName
  }

  /** What `loadNotes` produces, as its callers see it after `data || []`:
      `Missing` for null or any other falsy value (which they replace by the
      empty list), a list of notes, or a thrown parse error. */
  datatype LoadResult = Missing | Loaded(notes: seq<Note>) | Corrupt

  /** `data || []` as the callers write it after a successful load. */
  function OrEmpty(r: LoadResult): seq<Note>
    requires !r.Corrupt?
  {
    if r.Loaded? then r.notes else []
  }

  /** `loadNotes` on a store with contents `m`. An absent or empty value is
      null; a value `JSON.parse` reads as null, false, 0 or the empty string
      is falsy; a value that does not parse, or parses to anything but a
      list of notes, is corrupt. */
  function NotesIn(m: map<string, string>): (r: LoadResult)
    ensures r.Missing? <==> NotesKey !in m || m[NotesKey] == "" || m[NotesKey] in NoteCodec.FalsyTexts
  {
    if NotesKey !in m || m[NotesKey] == "" then Missing
    else
      NoteCodec.ParseFalsy(m[NotesKey]);
      match NoteCodec.Parse(m[NotesKey])
      case None => Corrupt
      case Some(v) =>
        if NoteCodec.Falsy(v) then Missing
        else match NoteCodec.NotesOf(v)
          case Some(xs) => Loaded(xs)
          case None => Corrupt
  }

  /** The text `setThemeOverride` stores: null is written as 'null'. */
  function OverrideText(v: Option<string>): string
  {
    if v.None? then "null" else v.value
  }

  /** `getThemeOverride` on a store with contents `m`; any other stored
      text is passed through by the cast. */
  function OverrideIn(m: map<string, string>): (r: Option<string>)
    ensures r.Some? ==> ThemeOverrideKey in m && r.value == m[ThemeOverrideKey]
    ensures r.None? <==> ThemeOverrideKey !in m || m[ThemeOverrideKey] in {"", "null"}
  {
    if ThemeOverrideKey !in m then None
    else
      var v := m[ThemeOverrideKey];
      if v == "" || v == "null" then None else Some(v)
  }

  /** `hasSeeded`: true exactly when the flag holds the text '1'. */
  function SeededIn(m: map<string, string>): (r: bool)
    ensures r <==> SeededKey in m && m[SeededKey] == "1"
  {
    SeededKey in m && m[SeededKey] == "1"
  }

  class Store {
    var entries: map<string, string>

    constructor (initial: map<string, string>)
      ensures entries == initial
    {
      entries := initial;
    }

    method SaveNotes(notes: seq<Note>)
      modifies this
      ensures entries == old(entries)[NotesKey := NoteCodec.Encode(notes)]
      ensures NotesIn(entries) == Loaded(notes)
    {
      entries := entries[NotesKey := NoteCodec.Encode(notes)];
      SaveThenLoad(old(entries), notes);
    }

    method LoadNotes() returns (r: LoadResult)
      ensures r == NotesIn(entries)
    {
      r := NotesIn(entries);
    }

    method ClearNotes()
      modifies this
      ensures entries == old(entries) - {NotesKey}
      ensures NotesIn(entries) == Missing
    {
      entries := entries - {NotesKey};
    }

    method GetThemeOverride() returns (v: Option<string>)
      ensures v == OverrideIn(entries)
    {
      v := OverrideIn(entries);
    }

    method SetThemeOverride(v: Option<string>)
      requires IsOverride(v)
      modifies this
      ensures entries == old(entries)[ThemeOverrideKey := OverrideText(v)]
      ensures OverrideIn(entries) == v
    {
      entries := entries[ThemeOverrideKey := OverrideText(v)];
    }

    method HasSeeded() returns (b: bool)
      ensures b == SeededIn(entries)
    {
      b := SeededIn(entries);
    }

    method MarkSeeded()
      modifies this
      ensures entries == old(entries)[SeededKey := "1"]
      ensures SeededIn(entries)
    {
      entries := entries[SeededKey := "1"];
    }
  }

  // ------------------------------------------------------------------ laws

  /** `loadNotes` after `saveNotes(xs)` returns `xs`. */
  lemma SaveThenLoad(m: map<string, string>, xs: seq<Note>)
    ensures NotesIn(m[NotesKey := NoteCodec.Encode(xs)]) == Loaded(xs)
  {
    NoteCodec.DecodeEncode(xs);
  }

  /** With nothing under the notes key (never saved, or cleared), `loadNotes` is null. */
  lemma LoadAbsent(m: map<string, string>)
    requires NotesKey !in m
    ensures NotesIn(m) == Missing
  {
  }

  /** `getThemeOverride` after `setThemeOverride(v)` returns `v`; null
      survives as itself, not as the text 'null'. */
  lemma OverrideRoundTrip(m: map<string, string>, v: Option<string>)
    requires IsOverride(v)
    ensures OverrideIn(m[ThemeOverrideKey := OverrideText(v)]) == v
  {
  }

  /** Distinct keys: each writer leaves the other two readings unchanged. */
  lemma KeysIndependent(m: map<string, string>, s: string)
    ensures OverrideIn(m[NotesKey := s]) == OverrideIn(m) && SeededIn(m[NotesKey := s]) == SeededIn(m)
    ensures OverrideIn(m - {NotesKey}) == OverrideIn(m) && SeededIn(m - {NotesKey}) == SeededIn(m)
    ensures NotesIn(m[ThemeOverrideKey := s]) == NotesIn(m) && SeededIn(m[ThemeOverrideKey := s]) == SeededIn(m)
    ensures NotesIn(m[SeededKey := s]) == NotesIn(m) && OverrideIn(m[SeededKey := s]) == OverrideIn(m)
  {
  }

  /** A value that does not parse makes `loadNotes` throw. */
  lemma UnparseableIsCorrupt(m: map<string, string>)
    requires NotesKey in m && m[NotesKey] != "" && NoteCodec.Parse(m[NotesKey]).None?
    ensures NotesIn(m) == Corrupt
  {
  }

  /** For instance, a truncated array. */
  lemma TruncatedValueIsCorrupt(m: map<string, string>)
    requires NotesKey in m && m[NotesKey] == "[{"
    ensures NotesIn(m) == Corrupt
  {
    var s := m[NotesKey];
    assert NoteCodec.ParseObj([]) == None;
    assert NoteCodec.ParseValue("{") == None;
    assert NoteCodec.ParseItems("{") == None;
    assert s[1..] == "{";
    assert NoteCodec.ParseValue(s) == None;
    UnparseableIsCorrupt(m);
  }

  /** The stored texts `false`, `0` and `""` load like a missing list:
      `JSON.parse` gives a falsy value, which the callers replace by `[]`. */
  lemma FalsyValueIsMissing(m: map<string, string>)
    requires NotesKey in m && m[NotesKey] in {"false", "0", "\"\""}
    ensures NotesIn(m) == Missing && OrEmpty(NotesIn(m)) == []
  {
  }
}
