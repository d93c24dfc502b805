/** The dark-mode preference of the cursor app shell (cursor/src/app.jsx): a
    boolean resolved on mount from the stored text, falling back to the system
    colour-scheme preference, then flipped by the toggle and written back. */
module CursorApp {
  import opened Wrappers
  import opened DarkModeStorage

  /** The palette mode handed to `createAppTheme`. */
  datatype PaletteMode = Light | Dark

  function ThemeMode(isDarkMode: bool): (m: PaletteMode)
    ensures m == Dark <==> isDarkMode
  {
    if isDarkMode then Dark else Light
  }

  /** `shouldBeDark`: a stored text that is not empty decides (dark exactly when it
      is "true"); an absent or empty one defers to the system preference. */
  function ShouldBeDark(saved: Option<string>, prefersDark: bool): bool {
    if saved.Some? && saved.value != "" then saved.value == "true" else prefersDark
  }

  /** Both directions of the resolution: a stored text other than "true" means
      light, whatever the system prefers; only a missing or empty one consults it. */
  lemma ShouldBeDarkCases(saved: Option<string>, prefersDark: bool)
    ensures saved.Some? && saved.value != "" ==> (ShouldBeDark(saved, prefersDark) <==> saved.value == "true")
    ensures saved.None? || saved.value == "" ==> ShouldBeDark(saved, prefersDark) == prefersDark
    ensures (forall p: bool :: ShouldBeDark(saved, p) == ShouldBeDark(saved, !p)) <==> saved.Some? && saved.value != ""
  {
    if saved.None? || saved.value == "" {
      assert ShouldBeDark(saved, true) != ShouldBeDark(saved, false);
    }
  }

  /** What the toggle writes is read back as the same mode by the next mount,
      whatever the system preference is then. */
  lemma ToggledModeReloads(store: map<string, string>, mode: bool, prefersDark: bool)
    ensures ShouldBeDark(Lookup(store[DarkModeKey := BoolText(mode)], DarkModeKey), prefersDark) == mode
  {
    assert Lookup(store[DarkModeKey := BoolText(mode)], DarkModeKey) == Some(BoolText(mode));
  }

  class App {
    var isDarkMode: bool
    var store: map<string, string>
    /** Whether the document root carries the `dark` class. */
    var rootDark: bool

    /** The first render (`useState(false)`) followed by the mount effect, which
        reads the stored text and the system preference `prefersDark`. */
    constructor (storage: map<string, string>, prefersDark: bool)
      ensures store == storage
      ensures isDarkMode == ShouldBeDark(Lookup(storage, DarkModeKey), prefersDark)
      ensures rootDark == isDarkMode
      ensures ThemeMode(isDarkMode) == Dark <==> rootDark
    {
      isDarkMode := false;
      store := storage;
      new;
      var savedMode := Lookup(store, DarkModeKey);
      var shouldBeDark := ShouldBeDark(savedMode, prefersDark);
      isDarkMode := shouldBeDark;
      if shouldBeDark {
        rootDark := true;
      } else {
        rootDark := false;
      }
    }

    /** `handleToggleDarkMode`. The root class is not touched here (the toggle
        button does that), and after the call the stored text alone decides the
        mode of the next mount. */
    method ToggleDarkMode()
      modifies this
      ensures isDarkMode == !old(isDarkMode)
      ensures store == old(store)[DarkModeKey := BoolText(isDarkMode)]
      ensures rootDark == old(rootDark)
      ensures forall p: bool :: ShouldBeDark(Lookup(store, DarkModeKey), p) == isDarkMode
    {
      var newMode := !isDarkMode;
      isDarkMode := newMode;
      store := store[DarkModeKey := BoolText(newMode)];
      forall p: bool
        ensures ShouldBeDark(Lookup(store, DarkModeKey), p) == isDarkMode
      {
        ToggledModeReloads(old(store), newMode, p);
      }
    }
  }
}
