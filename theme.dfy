/** The theme provider: the tri-state override ('light', 'dark' or null),
    the effective darkness derived from it and the system scheme, and the
    themes chosen from that. */
module Theme {
  import opened Wrappers
  import opened Storage

  /** `isDark`: a set override decides by itself; without one the system
      scheme does. (The text of an override is truthy unless empty.) */
  function IsDark(override: Option<string>, system: Option<string>): (dark: bool)
    ensures override == Some(DarkName) ==> dark
    ensures override == Some(LightName) ==> !dark
    ensures override.None? ==> (dark <==> system == Some(DarkName))
  {
    if override.Some? && override.value != "" then override.value == DarkName
    else system == Some(DarkName)
  }

  datatype PaperTheme = CustomPaperLight | CustomPaperDark
  datatype NavTheme = CombinedDefaultTheme | CombinedDarkTheme

  /** The component and navigation themes handed to the app. */
  function SelectThemes(isDark: bool): (r: (PaperTheme, NavTheme))
    ensures r.0 == CustomPaperDark <==> isDark
    ensures r.1 == CombinedDarkTheme <==> isDark
  {
    if isDark then (CustomPaperDark, CombinedDarkTheme) else (CustomPaperLight, CombinedDefaultTheme)
  }

  class ThemeProvider {
    var override: Option<string>

    /** The override starts unset, following the system. */
    constructor ()
      ensures override.None?
    {
      override := None;
    }

    /** The darkness in effect under a given system scheme. */
    function IsDarkUnder(system: Option<string>): bool
      reads this
    {
      IsDark(override, system)
    }

    /** The mount effect: the persisted override replaces the initial null. */
    method LoadPersisted(store: Store)
      modifies this
      ensures override == OverrideIn(store.entries)
    {
      override := store.GetThemeOverride();
    }

    /** `setManualOverride(v)`: the override becomes `v` in memory and in
        the store, where reading it back gives `v` again. */
    method SetManualOverride(store: Store, v: Option<string>)
      requires IsOverride(v)
      modifies this, store
      ensures override == v
      ensures store.entries == old(store.entries)[ThemeOverrideKey := OverrideText(v)]
      ensures OverrideIn(store.entries) == override
    {
      override := v;
      store.SetThemeOverride(v);
    }
  }
}
