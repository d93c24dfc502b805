/** The dark-mode context of the claudia app (claudia/src/ThemeContext.jsx): a
    boolean `isDarkMode`, loaded on mount from the stored `darkMode` entry, and an
    effect that after every change writes it back and sets the root `dark` class. */
module ClaudiaTheme {
  import opened Wrappers
  import opened DarkModeStorage

  /** The two MUI themes the provider chooses between. */
  datatype Theme = LightTheme | DarkTheme

  /** A stored entry that is not a boolean literal. */
  datatype LoadError = NotABoolean(text: string)

  /** `JSON.parse` of the stored entry, restricted to the boolean literals. */
  function ParseBool(text: string): (r: Result<bool, LoadError>)
    ensures r.Success? <==> text == "true" || text == "false"
    ensures r.Success? ==> BoolText(r.value) == text
    ensures r.Failure? ==> r.error == NotABoolean(text)
  {
    if text == "true" then Success(true)
    else if text == "false" then Success(false)
    else Failure(NotABoolean(text))
  }

  /** The value the load effect leaves: the default `false` when nothing is
      stored, the parsed entry otherwise. */
  function LoadedMode(store: map<string, string>): Result<bool, LoadError> {
    match Lookup(store, DarkModeKey)
    case None => Success(false)
    case Some(text) => ParseBool(text)
  }

  /** `currentTheme`. */
  function CurrentTheme(isDarkMode: bool): (t: Theme)
    ensures t == DarkTheme <==> isDarkMode
  {
    if isDarkMode then DarkTheme else LightTheme
  }

  /** Writing a mode and parsing it back gives the mode. */
  lemma ParseBoolText(b: bool)
    ensures ParseBool(BoolText(b)) == Success(b)
  {
  }

  /** Whatever the persist effect writes is what the next mount loads. */
  lemma PersistedModeReloads(store: map<string, string>, mode: bool)
    ensures LoadedMode(store[DarkModeKey := BoolText(mode)]) == Success(mode)
  {
    assert Lookup(store[DarkModeKey := BoolText(mode)], DarkModeKey) == Some(BoolText(mode));
  }

  class ThemeContextProvider {
    var isDarkMode: bool
    var store: map<string, string>
    /** Whether the document root carries the `dark` class. */
    var rootDark: bool

    /** What the persist effect establishes: the stored entry is the serialised
        mode, and the root class is present exactly in dark mode. */
    ghost predicate Valid()
      reads this
    {
      Lookup(store, DarkModeKey) == Some(BoolText(isDarkMode)) && rootDark == isDarkMode
    }

    /** The first render, before its effects: `useState(false)`. */
    constructor (storage: map<string, string>, rootWasDark: bool)
      ensures !isDarkMode && store == storage && rootDark == rootWasDark
      ensures CurrentTheme(isDarkMode) == LightTheme
    {
      isDarkMode := false;
      store := storage;
      rootDark := rootWasDark;
    }

    /** The effect keyed on `isDarkMode`. */
    method PersistEffect()
      modifies this
      ensures Valid()
      ensures isDarkMode == old(isDarkMode)
      ensures store == old(store)[DarkModeKey := BoolText(isDarkMode)]
    {
      store := store[DarkModeKey := BoolText(isDarkMode)];
      if isDarkMode {
        rootDark := true;
      } else {
        rootDark := false;
      }
    }

    /** The mount: the load effect, then the persist effect for the first render,
        then, when the load changed the mode, the persist effect once more for the
        render that follows. An entry that is not a boolean stops the mount with
        an error and nothing changed. */
    method MountEffects() returns (thrown: Option<LoadError>)
      requires !isDarkMode
      modifies this
      ensures thrown.Some? <==> LoadedMode(old(store)).Failure?
      ensures thrown.Some? ==> thrown.value == LoadedMode(old(store)).error && unchanged(this)
      ensures thrown.None? ==> isDarkMode == LoadedMode(old(store)).value
      ensures thrown.None? ==> Valid() && store == old(store)[DarkModeKey := BoolText(isDarkMode)]
    {
      var loaded := isDarkMode;
      var savedTheme := Lookup(store, DarkModeKey);
      if savedTheme.Some? {
        var parsed := ParseBool(savedTheme.value);
        if parsed.Failure? {
          return Some(parsed.error);
        }
        loaded := parsed.value;
      }
      PersistEffect();
      if loaded != isDarkMode {
        isDarkMode := loaded;
        PersistEffect();
      }
      thrown := None;
    }

    /** `toggleDarkMode`, followed by the persist effect it triggers. */
    method ToggleDarkMode()
      requires Valid()
      modifies this
      ensures isDarkMode == !old(isDarkMode)
      ensures Valid()
      ensures store == old(store)[DarkModeKey := BoolText(isDarkMode)]
      ensures LoadedMode(store) == Success(isDarkMode)
    {
      isDarkMode := !isDarkMode;
      PersistEffect();
      PersistedModeReloads(old(store), isDarkMode);
    }
  }
}
