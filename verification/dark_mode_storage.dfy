/** What the two dark-mode components share about storage: the `darkMode` key, the
    text a boolean is written as (`String(b)` and `JSON.stringify(b)` agree on
    booleans), and `localStorage.getItem` on a store modelled as a map. */
module DarkModeStorage {
  import opened Wrappers

  const DarkModeKey: string := "darkMode"

  /** The text a boolean is stored as. */
  function BoolText(b: bool): (t: string)
    ensures t == "true" <==> b
    ensures t == "false" <==> !b
  {
    if b then "true" else "false"
  }

  /** `getItem`: the stored text, or nothing (`null`) when the key is absent. */
  function Lookup(store: map<string, string>, key: string): (r: Option<string>)
    ensures r.Some? <==> key in store
    ensures r.Some? ==> r.value == store[key]
  {
    if key in store then Some(store[key]) else None
  }

  /** The two texts a boolean is written as are distinct, so the text determines
      the value. */
  lemma BoolTextInjective(a: bool, b: bool)
    ensures BoolText(a) == BoolText(b) ==> a == b
  {
    if a != b {
      assert BoolText(a)[0] != BoolText(b)[0];
    }
  }
}
