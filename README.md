# RNNotes in Dafny

A model of the logic of RNNotes, a React Native notes app, and proofs about it. The app keeps a list of notes (id, title, body, pinned flag, creation and update times) in the device's key-value store. One screen searches and sorts the list and supports delete with one-shot undo and pin toggling. Two form screens create and edit a note behind one three-rule validator. A theme provider combines a tri-state manual override with the system scheme, and the settings screen switches that override.

The files follow the app's own units:

- `note.dfy` (`NoteModel`): the note record, and look-up and update by id.
- `text.dfy` (`Text`): ECMAScript `trim`, UTF-16 `length`, `toLowerCase` and `includes`, written out.
- `seqs.dfy` (`Seqs`): the order-keeping filter, subsequences and reversal.
- `list_engine.dfy` (`ListEngine`): the search-and-sort behind the notes list.
- `codec.dfy` (`NoteCodec`): `JSON.stringify` and `JSON.parse` over the JSON values a notes list is made of.
- `storage.dfy` (`Storage`): the three store keys, as a class holding a `map<string, string>`.
- `notes_screen.dfy` (`NotesScreen`): the list screen's state (`notes`, `deletedNote`, `refreshing`) and its transitions.
- `note_form.dfy`, `add_note.dfy` and `edit_note.dfy`: the validator and the two forms' Save.
- `theme.dfy` (`Theme`) and `settings.dfy` (`Settings`): the override state machine.

Some modelling choices:

- Timestamps are integers.
- `new Date()` and `generateUUID()` become parameters (`now`, `id`).
- The system colour scheme is a parameter.
- `localeCompare` is the lexicographic order of code points.

Two behaviours of the code are easy to misread, and the model follows the code in both:

- **Reading a stored list.** One might expect an unreadable stored list to load as an empty collection. In the code, `loadNotes` returns null for an absent or empty value. Every caller writes `data || []`, so null and the other falsy values `JSON.parse` can return become `[]`: within the JSON subset listed under Left out, the stored texts `null`, `false`, `0`, `-0` and `""`. Any other text that does not parse makes `JSON.parse` throw. Only the two Save handlers catch that. The model has `Missing` for the values callers replace by `[]`, and `Corrupt` for the throw; parsed values that are not a list of notes are `Corrupt` too (see `Storage.NotesIn` under Left out). In the list screen's load and refresh, `Corrupt` leaves the list unchanged, and a refresh also leaves its `refreshing` flag raised. In the Save handlers, `Corrupt` gives the message "Failed to save note".
- **Undo after a delete.** One might expect undo to restore the list exactly as it was before the delete. The code puts the note back at the front of the current list. `DeleteUndoFirst` and `DeleteUndoPermutes` state what does hold. The list comes back exactly only when the note was first. In every case it comes back as a multiset.

## Model

| member | source | states |
|---|---|---|
| NoteModel.FindById | src/screens/NotesScreen.tsx:120 | `find` by id: none exactly when no note has the id; otherwise the first note carrying it |
| NoteModel.UpdateWhere | src/screens/NotesScreen.tsx:137-139 | the `map` update keeps length and order, rewrites each note with the id and leaves every other note equal |
| NoteModel.UpdateAbsent | src/screens/EditNoteScreen.tsx:64-68 | mapping an update for an id no note has gives back the same list |
| Text.Trim | src/screens/AddNoteScreen.tsx:17 | `title.trim()`: the result is the title's own slice, with only white space before and after it, and neither of its ends is white space |
| Text.TrimEmptyIff | src/screens/AddNoteScreen.tsx:17 | `title.trim()` is empty exactly when every character of the title is ECMAScript white space |
| Text.TrimBounds | src/screens/AddNoteScreen.tsx:41 | a trimmed string is no longer than the original, has no white space at either end, and trimming it again changes nothing |
| Text.TrimDropsPadding | src/screens/AddNoteScreen.tsx:41 | white space appended to a trimmed non-empty string is removed by `trim` |
| Text.TrimUtf16Length | src/screens/AddNoteScreen.tsx:41 | trimming never increases the UTF-16 length |
| Text.Utf16Length | src/screens/AddNoteScreen.tsx:21 | `length` counts UTF-16 code units: between one and two per character |
| Text.Lower | src/screens/NotesScreen.tsx:151 | `toLowerCase` keeps the length and maps each character on its own |
| Text.LowerIdempotent | src/screens/NotesScreen.tsx:151-153 | a lower-cased text has no capitals left: lower-casing it again changes nothing |
| Text.Includes | src/screens/NotesScreen.tsx:153 | `includes` as a left-to-right scan; what it decides is stated by `Text.IncludesIff` |
| Text.IncludesIff | src/screens/NotesScreen.tsx:153 | `includes` holds exactly when the needle occurs at some position of the text |
| Text.IncludesEmpty | src/screens/NotesScreen.tsx:153 | every text includes the empty string |
| ListEngine.Matches | src/screens/NotesScreen.tsx:151-154 | the filter's test on one note; stated by `ListEngine.MatchesIff` |
| ListEngine.Search | src/screens/NotesScreen.tsx:152-154 | `notes.filter(...)`; its order and contents are stated by `ListEngine.SearchKeepsOrder` and `ListEngine.FilteredMembers` |
| ListEngine.Filtered | src/screens/NotesScreen.tsx:150-175 | the `filtered` memo: search, then sort; stated by `ListEngine.FilteredMembers`, `PinnedFirst`, `NewestFirst`, `OldestFirst` and `ZaReversesAz` |
| ListEngine.MatchesIff | src/screens/NotesScreen.tsx:151-154 | a note matches exactly when its lower-cased title or body contains the lower-cased, untrimmed query |
| ListEngine.MatchesIgnoresQueryCase | src/screens/NotesScreen.tsx:151-153 | a query and its lower-cased form select the same notes |
| ListEngine.MatchesIgnoresNoteCase | src/screens/NotesScreen.tsx:151-153 | lower-casing a note's title and body does not change whether it matches |
| ListEngine.FilteredMembers | src/screens/NotesScreen.tsx:152-174 | the shown list is a permutation of the matching notes: each note appears as often as in `notes` if it matches, otherwise not at all |
| ListEngine.SearchKeepsOrder | src/screens/NotesScreen.tsx:152-154 | the search result is a subsequence of `notes`, so survivors keep their order |
| ListEngine.EmptyQueryKeepsAll | src/screens/NotesScreen.tsx:151-154 | an empty query keeps every note, in order |
| ListEngine.LocaleCompareZero | src/screens/NotesScreen.tsx:169 | titles compare as equal only when they are equal |
| ListEngine.LocaleCompareAntisymmetric | src/screens/NotesScreen.tsx:169-171 | swapping the titles negates the comparison |
| ListEngine.LocaleCompareTransitive | src/screens/NotesScreen.tsx:169-171 | the title order is transitive |
| ListEngine.Compare | src/screens/NotesScreen.tsx:156-171 | the five comparators, negative putting `a` first; their order laws are the next three rows |
| ListEngine.CompareAntisymmetric | src/screens/NotesScreen.tsx:156-171 | each of the five comparators is antisymmetric |
| ListEngine.CompareTransitive | src/screens/NotesScreen.tsx:156-171 | each of the five comparators is transitive |
| ListEngine.TieTransitive | src/screens/NotesScreen.tsx:156-171 | two notes that tie with a third tie with each other |
| ListEngine.Insert | src/screens/NotesScreen.tsx:156-172 | inserting adds exactly the one note, as a multiset |
| ListEngine.Sort | src/screens/NotesScreen.tsx:156-172 | `list.sort` returns a permutation of its input |
| ListEngine.InsertSorted | src/screens/NotesScreen.tsx:156-172 | inserting into a sorted list keeps it sorted |
| ListEngine.SortSorted | src/screens/NotesScreen.tsx:156-172 | the sorted list is ordered by the comparator: no later note compares below an earlier one |
| ListEngine.InsertTies | src/screens/NotesScreen.tsx:156-172 | inserting a note places it after every note of the list that ties with it |
| ListEngine.SortStable | src/screens/NotesScreen.tsx:156-172 | the sort is stable: notes that tie keep their relative order |
| ListEngine.SortedTiesUnique | src/screens/NotesScreen.tsx:156-172 | two sorted permutations with the same order within every group of ties are equal |
| ListEngine.StableSortUnique | src/screens/NotesScreen.tsx:156-172 | any stable sorted permutation of the input equals the result of the sort |
| ListEngine.SortedIdentifiedUnique | src/screens/NotesScreen.tsx:156-172 | where only equal notes tie, the sorted permutation is unique |
| ListEngine.PinnedFirst | src/screens/NotesScreen.tsx:156-163 | in mode `pinned`, every pinned note precedes every unpinned one, and each group has non-increasing `updatedAt` |
| ListEngine.NewestFirst | src/screens/NotesScreen.tsx:164-165 | in mode `newest`, `updatedAt` is non-increasing along the list |
| ListEngine.OldestFirst | src/screens/NotesScreen.tsx:166-167 | in mode `oldest`, `updatedAt` is non-decreasing along the list |
| ListEngine.ZaReversesAz | src/screens/NotesScreen.tsx:168-171 | when titles identify notes, the `za` list is exactly the reverse of the `az` list |
| NoteCodec.Digits | src/utils/storage.ts:10 | an integer's decimal text is a non-empty run of digits |
| NoteCodec.DigitRun | src/utils/storage.ts:16 | the digit scan stops at the first character that is not a digit |
| NoteCodec.Encode | src/utils/storage.ts:10 | `JSON.stringify(notes)`; read back by `NoteCodec.DecodeEncode` |
| NoteCodec.Parse | src/utils/storage.ts:16 | `JSON.parse`: one whole value, nothing after it; inverse of the writer by `NoteCodec.ParseStringify` |
| NoteCodec.StringRoundTrip | src/utils/storage.ts:10-16 | reading a written string literal gives back the string and the text after it |
| NoteCodec.IntRoundTrip | src/utils/storage.ts:10-16 | reading a written integer gives back the integer and the text after it |
| NoteCodec.ValueRoundTrip | src/utils/storage.ts:10-16 | reading a written JSON value gives back the value and the text after it |
| NoteCodec.ParseStringify | src/utils/storage.ts:10-16 | `JSON.parse(JSON.stringify(v))` is `v` for every value |
| NoteCodec.ParseNull | src/utils/storage.ts:16 | only the text `null` parses to null |
| NoteCodec.ParseFalsy | src/utils/storage.ts:16 | `JSON.parse` yields a falsy value (null, false, 0, empty string) exactly for the texts `null`, `false`, `0`, `-0` and `""` |
| NoteCodec.NoteOfJson | src/utils/storage.ts:16 | reading a note's object gives back the note |
| NoteCodec.DecodeEncode | src/utils/storage.ts:9-17 | the text written for a list parses to the list's JSON array, which reads back as the same notes in the same order |
| Storage.NotesIn | src/utils/storage.ts:13-17 | the reading is `Missing` (null, or a falsy value the callers replace by `[]`) exactly when the value is absent, empty or one of `null`, `false`, `0`, `-0`, `""` |
| Storage.OverrideIn | src/utils/storage.ts:23-27 | `getThemeOverride` yields null exactly when the value is absent, empty or `'null'`; otherwise it yields the stored text |
| Storage.SeededIn | src/utils/storage.ts:33-36 | `hasSeeded` is true exactly when the flag holds `'1'` |
| Storage.Store.constructor | src/utils/storage.ts:1-7 | the store starts with the given contents |
| Storage.Store.SaveNotes | src/utils/storage.ts:9-11 | writes only the notes key, with the list's JSON text; loading then gives back the list |
| Storage.Store.LoadNotes | src/utils/storage.ts:13-17 | returns the stored reading of the notes key |
| Storage.Store.ClearNotes | src/utils/storage.ts:19-21 | removes only the notes key; loading then gives null |
| Storage.Store.GetThemeOverride | src/utils/storage.ts:23-27 | returns the stored reading of the override key |
| Storage.Store.SetThemeOverride | src/utils/storage.ts:29-31 | writes only the override key, null as `'null'`; reading gives back the value |
| Storage.Store.HasSeeded | src/utils/storage.ts:33-36 | returns whether the flag holds `'1'` |
| Storage.Store.MarkSeeded | src/utils/storage.ts:38-40 | writes only the flag, as `'1'`; `hasSeeded` is then true |
| Storage.SaveThenLoad | src/utils/storage.ts:9-17 | `loadNotes` after `saveNotes(xs)` returns `xs` |
| Storage.LoadAbsent | src/utils/storage.ts:13-21 | with the notes key absent, for example after `clearNotes`, `loadNotes` returns null |
| Storage.OverrideRoundTrip | src/utils/storage.ts:23-31 | `getThemeOverride` after `setThemeOverride(v)` returns `v` for `'light'`, `'dark'` and null |
| Storage.KeysIndependent | src/utils/storage.ts:5-40 | the keys are distinct: writing or removing one key leaves the readings of the other two unchanged |
| Storage.UnparseableIsCorrupt | src/utils/storage.ts:16 | every non-empty stored value that `JSON.parse` rejects makes `loadNotes` throw |
| Storage.TruncatedValueIsCorrupt | src/utils/storage.ts:16 | an instance: the truncated text `[{` makes `loadNotes` throw |
| Storage.FalsyValueIsMissing | src/utils/storage.ts:15-16 | the stored texts `false`, `0` and `""` load as `Missing`, which the callers replace by the empty list, like an absent value |
| NotesScreen.SampleNotes | src/screens/NotesScreen.tsx:27-52 | `SAMPLE_NOTES` with its three ids, titles, bodies and pins; its shape is stated by `NotesScreen.SampleNotesShape` |
| NotesScreen.WithoutId | src/screens/NotesScreen.tsx:123 | the delete filter; stated by `NotesScreen.WithoutIdSpec` |
| NotesScreen.SampleNotesShape | src/screens/NotesScreen.tsx:27-52 | three samples with distinct ids; only the first is pinned; each has equal creation and update times |
| NotesScreen.WithoutIdSpec | src/screens/NotesScreen.tsx:123 | the delete filter removes every note with the id; every other note survives as often as before and in its order |
| NotesScreen.WithoutAbsentId | src/screens/NotesScreen.tsx:119-123 | the delete filter for an id no note has keeps the list unchanged |
| NotesScreen.WithoutUniqueId | src/screens/NotesScreen.tsx:123 | with exactly one note carrying the id, deleting it leaves the notes before it followed by the notes after it |
| NotesScreen.TogglePinSpec | src/screens/NotesScreen.tsx:136-139 | a toggle flips `pinned` and stamps `updatedAt` on the notes with the id; every other field and note, the length and the order are unchanged |
| NotesScreen.TogglePinTwice | src/screens/NotesScreen.tsx:136-139 | two toggles restore every pin; only `updatedAt` of the toggled notes changes |
| NotesScreen.DeleteUndoPermutes | src/screens/NotesScreen.tsx:119-134 | deleting a note with a unique id and undoing moves that note to the front: the same multiset of notes |
| NotesScreen.DeleteUndoFirst | src/screens/NotesScreen.tsx:119-134 | when the deleted note was first, undo restores the list exactly |
| NotesScreen.NotesList.constructor | src/screens/NotesScreen.tsx:63-72 | the screen starts with no notes, nothing to undo and no refresh under way |
| NotesScreen.NotesList.Seed | src/screens/NotesScreen.tsx:88-93 | the first-run branch writes the list and the flag, and shows the list |
| NotesScreen.NotesList.Load | src/screens/NotesScreen.tsx:87-98 | first run: writes the samples, sets the flag, shows the samples; later: the store is untouched and the screen shows the stored list, null as `[]`; the flag is always set afterwards |
| NotesScreen.NotesList.SaveAndSet | src/screens/NotesScreen.tsx:114-117 | shows the list and writes it, so the store reads back what is shown |
| NotesScreen.NotesList.HandleDelete | src/screens/NotesScreen.tsx:119-128 | an absent id changes nothing; otherwise holds the first match for undo and shows and writes the list without the id |
| NotesScreen.NotesList.UndoDelete | src/screens/NotesScreen.tsx:130-134 | with nothing held, changes nothing; otherwise puts the held note in front of the current list and writes it; afterwards nothing is held, so a second undo does nothing |
| NotesScreen.NotesList.TogglePin | src/screens/NotesScreen.tsx:136-141 | shows and writes the list with the matching notes' pins flipped at `now` |
| NotesScreen.NotesList.OnRefresh | src/screens/NotesScreen.tsx:143-148 | shows the stored list, falsy values as `[]`, and lowers the refresh flag; a value that does not parse leaves the list as it was and the flag raised |
| NoteForm.Message | src/screens/AddNoteScreen.tsx:18-26 | the snackbar text for each broken rule, in the add screen's and the edit screen's (src/screens/EditNoteScreen.tsx:45-53) wording |
| NoteForm.Validate | src/screens/AddNoteScreen.tsx:16-30 | the three rules in order: title required exactly when it is all white space; too long exactly when not blank and over 100 code units untrimmed; body too long when the title passes and the body is over 5000; otherwise accepted (the edit screen's rules at src/screens/EditNoteScreen.tsx:43-57 are the same) |
| NoteForm.AcceptedTitle | src/screens/AddNoteScreen.tsx:17-41 | an accepted title, trimmed, is non-empty, at most 100 code units, has no white space at either end, and stays the same when trimmed again |
| NoteForm.PaddedTitleTooLong | src/screens/AddNoteScreen.tsx:21-23 | the length rule reads the untrimmed title: a short title padded past 100 units with trailing spaces is refused, though it would be stored short |
| AddNote.NewNote | src/screens/AddNoteScreen.tsx:39-46 | the note `handleSave` builds; stated by `AddNote.NewNoteShape` |
| AddNote.NewNoteShape | src/screens/AddNoteScreen.tsx:39-46 | the new note has the given id, the trimmed title in stored form, the body as typed, no pin, and `createdAt == updatedAt == now` |
| AddNote.Prepended | src/screens/AddNoteScreen.tsx:48 | the saved list is the new note followed by the existing notes unchanged |
| AddNote.PrependKeepsTitles | src/screens/AddNoteScreen.tsx:39-49 | adding a note keeps every stored title trimmed, non-empty and at most 100 units long |
| AddNote.HandleSave | src/screens/AddNoteScreen.tsx:32-55 | invalid input is refused with the rule's message and the store is untouched; an unparseable list is reported as "Failed to save note"; otherwise the new note plus the stored list (null as empty) is written and reads back |
| EditNote.Prefill | src/screens/EditNoteScreen.tsx:28-34 | the form is filled from the first note with the id, and from none when the list is missing, unparseable or lacks the id |
| EditNote.EditedNotes | src/screens/EditNoteScreen.tsx:64-68 | the edit `map`; stated by `EditNote.EditedNotesSpec` |
| EditNote.EditedNotesSpec | src/screens/EditNoteScreen.tsx:64-68 | only notes with the id change: trimmed title, new body, `updatedAt = now`; id, pin and `createdAt` kept; length and order kept |
| EditNote.EditAbsent | src/screens/EditNoteScreen.tsx:64-70 | with the id absent, the saved list equals the loaded list |
| EditNote.EditKeepsTitles | src/screens/EditNoteScreen.tsx:64-70 | an accepted edit keeps every stored title trimmed, non-empty and at most 100 units long |
| EditNote.EditNoteForm.constructor | src/screens/EditNoteScreen.tsx:18-21 | the screen starts with no note and empty fields, and shows nothing |
| EditNote.EditNoteForm.Load | src/screens/EditNoteScreen.tsx:24-41 | fills note, title and body from the found note; with none found, nothing changes |
| EditNote.EditNoteForm.HandleSave | src/screens/EditNoteScreen.tsx:59-75 | invalid input is refused with the edit screen's message and the store is untouched; an unparseable list is reported; otherwise the edit is mapped over the stored list, which is written and reads back |
| Theme.IsDark | src/context/ThemeContext.tsx:36 | override `'dark'` is dark and `'light'` is light under any system scheme; with no override, dark exactly when the system is dark |
| Theme.SelectThemes | src/context/ThemeContext.tsx:46-47 | the dark component and navigation themes are chosen exactly when dark |
| Theme.ThemeProvider.constructor | src/context/ThemeContext.tsx:22 | the override starts as null |
| Theme.ThemeProvider.LoadPersisted | src/context/ThemeContext.tsx:25-34 | the persisted override replaces the initial null |
| Theme.ThemeProvider.SetManualOverride | src/context/ThemeContext.tsx:49-52 | sets the in-memory override to `v` and persists it, so reading the store gives `v` |
| Settings.SwitchOn | src/screens/SettingsScreen.tsx:26 | the switch value `override !== null` |
| Settings.ToggleTarget | src/screens/SettingsScreen.tsx:12-26 | the switch (on exactly when an override is set) flips at every toggle; from automatic the chosen override shows the opposite theme under any system scheme |
| Settings.ToggleAuto | src/screens/SettingsScreen.tsx:12-18 | from null, sets the override opposite to the current theme, so the theme flips; from manual, sets null; the switch flips and the store agrees; the store changes only at the override key, so the notes list and the seeded flag read as before |
| Settings.ForceLight | src/screens/SettingsScreen.tsx:29 | sets `'light'` whatever was set before: light under any system scheme; the store changes only at the override key, so the notes list and the seeded flag read as before |
| Settings.ForceDark | src/screens/SettingsScreen.tsx:30 | sets `'dark'` whatever was set before: dark under any system scheme; the store changes only at the override key, so the notes list and the seeded flag read as before |
| Settings.ClearAllNotes | src/screens/SettingsScreen.tsx:32-43 | removes the notes list only; override and seeded flag are unchanged; the message is "Notes cleared" |

## Left out

- JSON: the codec writes no white space and reads none between tokens. Strings escape only `"` and `\`, and no other escape (`\n`, `\uXXXX`, control characters) is written or read. Numbers are integers without fraction or exponent.
- Timestamps: the app stores ISO-8601 strings and compares them through `new Date(...).getTime()`. The model stores the integer instant. Date formatting and NaN from malformed dates are not part of this model.
- Storage.NotesIn: a stored text that parses to a truthy value other than an array of six-field notes (`true`, a non-zero number, a non-empty string, an object, or an array holding anything else) is `Corrupt`, like a text that does not parse. The JSON values that are not notes have no place in `seq<Note>`. The app keeps such a value as it is. What it then does depends on the screen:
  - The list screen sets it as its notes (NotesScreen.tsx:97, 146). Computing the shown list then throws unless the value is an array and every element has a string title, and a string body whenever its lower-cased title does not contain the query: the `||` at NotesScreen.tsx:153 reads the body only then, so with the empty query string titles are enough. The model instead leaves the list unchanged.
  - Add's Save (AddNoteScreen.tsx:48-49) spreads the value. An array is saved with the new note in front, and a string is saved as its characters. Any other value makes the spread throw, which is reported as "Failed to save note".
  - Edit's Save (EditNoteScreen.tsx:63-70) maps over an array whose elements are not null and saves the result. Any other value throws and is reported.
  - In the model, both Save handlers report the failure for every such value.
- ListEngine.LocaleCompare: code-point order, not the locale's collation.
- Text.LowerChar: lower-cases ASCII and Latin-1 capitals only; the rest of Unicode case mapping is not modelled.
- NotesScreen.SampleNotes: the six `new Date()` calls are one instant `now`.
- NotesScreen.TogglePinAt and EditNote.EditAt: `togglePin` (NotesScreen.tsx:138) and the edit `map` (EditNoteScreen.tsx:66) call `new Date()` once for each matching note. The model stamps every matching note with the same `now`. The instants could differ only when several notes share the id.
- `generateUUID` is not part of this model; its fresh id is a parameter.
- The debounce hook is not part of this model; the query is taken as already debounced.
- `useColorScheme` is a parameter. A change of the system scheme is modelled by evaluating `IsDarkUnder` with another value.
- Concurrency is left out: the `active`/`mounted` cancellation flags, races between overlapping async loads and saves, and the state React applies after an `await`. Each method runs to completion.
- Failures of the store itself (a write that rejects) are left out. The only failure modelled is a notes value that `JSON.parse` rejects or that is not a list of notes.
- The snackbar visibility of delete, the menu state, navigation (`goBack`), animations and rendering are presentation only.
- `highlightText` in the note card builds a regular expression from the query, so its behaviour belongs to the regex engine.
- The commented-out older copies of each file are dead code.
