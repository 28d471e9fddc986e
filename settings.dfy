/** The settings screen: the auto/manual switch, the Force Light and Force
    Dark buttons, and Clear Notes. */
module Settings {
  import opened Wrappers
  import opened Storage
  import opened Theme

  /** The switch is on exactly when a manual override is set. */
  predicate SwitchOn(override: Option<string>)
  {
    override.Some?
  }

  /** The override `toggleAuto` asks for: from automatic, the manual theme
      opposite to the one showing; from manual, back to automatic. */
  function ToggleTarget(override: Option<string>, isDark: bool): (r: Option<string>)
    ensures IsOverride(r)
    ensures SwitchOn(r) <==> !SwitchOn(override)
    ensures override.None? ==> forall system :: IsDark(r, system) == !isDark
  {
    if override.None? then Some(if isDark then LightName else DarkName) else None
  }

  const NotesCleared: string := "Notes cleared"

  /** `toggleAuto`: only the override changes, in memory and in the store. */
  method ToggleAuto(theme: ThemeProvider, store: Store, system: Option<string>)
    modifies theme, store
    ensures theme.override == ToggleTarget(old(theme.override), IsDark(old(theme.override), system))
    ensures SwitchOn(theme.override) <==> !SwitchOn(old(theme.override))
    ensures old(theme.override).None? ==> theme.IsDarkUnder(system) == !IsDark(old(theme.override), system)
    ensures store.entries == old(store.entries)[ThemeOverrideKey := OverrideText(theme.override)]
    ensures NotesIn(store.entries) == NotesIn(old(store.entries))
    ensures SeededIn(store.entries) == SeededIn(old(store.entries))
    ensures OverrideIn(store.entries) == theme.override
  {
    var target := ToggleTarget(theme.override, theme.IsDarkUnder(system));
    theme.SetManualOverride(store, target);
    KeysIndependent(old(store.entries), OverrideText(target));
  }

  /** Force Light: light under every system scheme, whatever was set before;
      the notes list and the seeded flag are untouched. */
  method ForceLight(theme: ThemeProvider, store: Store)
    modifies theme, store
    ensures theme.override == Some(LightName)
    ensures forall system :: !theme.IsDarkUnder(system)
    ensures store.entries == old(store.entries)[ThemeOverrideKey := OverrideText(theme.override)]
    ensures NotesIn(store.entries) == NotesIn(old(store.entries))
    ensures SeededIn(store.entries) == SeededIn(old(store.entries))
    ensures OverrideIn(store.entries) == theme.override
  {
    theme.SetManualOverride(store, Some(LightName));
    KeysIndependent(old(store.entries), LightName);
  }

  /** Force Dark: dark under every system scheme, whatever was set before;
      the notes list and the seeded flag are untouched. */
  method ForceDark(theme: ThemeProvider, store: Store)
    modifies theme, store
    ensures theme.override == Some(DarkName)
    ensures forall system :: theme.IsDarkUnder(system)
    ensures store.entries == old(store.entries)[ThemeOverrideKey := OverrideText(theme.override)]
    ensures NotesIn(store.entries) == NotesIn(old(store.entries))
    ensures SeededIn(store.entries) == SeededIn(old(store.entries))
    ensures OverrideIn(store.entries) == theme.override
  {
    theme.SetManualOverride(store, Some(DarkName));
    KeysIndependent(old(store.entries), DarkName);
  }

  /** Clear Notes: removes the notes list and nothing else. */
  method ClearAllNotes(store: Store) returns (message: string)
    modifies store
    ensures store.entries == old(store.entries) - {NotesKey}
    ensures NotesIn(store.entries).Missing?
    ensures OverrideIn(store.entries) == OverrideIn(old(store.entries))
    ensures SeededIn(store.entries) == SeededIn(old(store.entries))
    ensures message == NotesCleared
  {
    store.ClearNotes();
    KeysIndependent(old(store.entries), "");
    message := NotesCleared;
  }
}
