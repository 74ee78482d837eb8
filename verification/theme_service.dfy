/**
 * The theme selector: three named themes, the current name, and the name
 * persisted under one storage key. Writing the theme's colours into the
 * document is not part of this model.
 */
module ThemeService {
  import opened Wrappers

  datatype Theme = Theme(name: string, primary: string, secondary: string, background: string, text: string)

  /** `THEMES`, keyed by theme name. */
  function Themes(): map<string, Theme> {
    map[
      "light" := Theme("Light", "#1976d2", "#424242", "#ffffff", "#000000"),
      "dark" := Theme("Dark", "#bb86fc", "#03dac6", "#121212", "#ffffff"),
      "blue" := Theme("Blue Ocean", "#0077be", "#00a8cc", "#f0f8ff", "#1e3a8a")
    ]
  }

  /** `Object.keys(THEMES)`: the keys in declaration order. */
  const ThemeKeys: seq<string> := ["light", "dark", "blue"]

  const StorageKey := "angular-poc-theme"
  const DefaultTheme := "light"

  /** The current theme name and the value stored under `StorageKey`. */
  datatype ThemeState = ThemeState(current: string, stored: Option<string>)

  predicate IsTheme(name: string) {
    name in Themes()
  }

  /** The state invariant: the current name is one of the themes. */
  predicate Valid(s: ThemeState) {
    IsTheme(s.current)
  }

  lemma ThemeKeysAreTheKeys()
    ensures |ThemeKeys| == |Themes()| == 3
    ensures forall k :: k in Themes() <==> k in ThemeKeys
  {
    assert Themes().Keys == {"light", "dark", "blue"};
  }

  // ---------------------------------------------------------------- the lookup as written

  /**
   * The names every object literal inherits from `Object.prototype`. Indexing
   * `THEMES` with one of them yields a function or an object, which is truthy.
   */
  const InheritedNames: set<string> := {
    "constructor", "hasOwnProperty", "isPrototypeOf", "propertyIsEnumerable",
    "toLocaleString", "toString", "valueOf", "__proto__",
    "__defineGetter__", "__defineSetter__", "__lookupGetter__", "__lookupSetter__"
  }

  /** `THEMES[name]` is truthy: an own key, or a name found on the prototype chain. */
  predicate LookupIsTruthy(name: string) {
    IsTheme(name) || name in InheritedNames
  }

  /** `setTheme(name)` exactly as written: guarded by the truthiness of `THEMES[name]`. */
  function SetThemeAsWritten(s: ThemeState, name: string): (t: ThemeState)
    ensures LookupIsTruthy(name) ==> t == ThemeState(name, Some(name))
    ensures !LookupIsTruthy(name) ==> t == s
  {
    if IsTheme(name) || name in InheritedNames then ThemeState(name, Some(name)) else s
  }

  /** The constructor exactly as written: a stored name is adopted when `THEMES[name]` is truthy. */
  function InitAsWritten(stored: Option<string>): (s: ThemeState)
    ensures stored.Some? && LookupIsTruthy(stored.value) ==> s.current == stored.value
    ensures !(stored.Some? && LookupIsTruthy(stored.value)) ==> s.current == DefaultTheme
    ensures s.stored == stored
  {
    if stored.Some? && (IsTheme(stored.value) || stored.value in InheritedNames)
    then ThemeState(stored.value, stored) else ThemeState(DefaultTheme, stored)
  }

  /** As written, `setTheme('constructor')` and a stored 'toString' both leave the state outside the three themes. */
  lemma AsWrittenLeavesThemes(s: ThemeState)
    ensures SetThemeAsWritten(s, "constructor").current == "constructor"
    ensures !Valid(SetThemeAsWritten(s, "constructor"))
    ensures !Valid(InitAsWritten(Some("toString")))
  {
    assert "constructor" in InheritedNames;
    assert "toString" in InheritedNames;
  }

  // ---------------------------------------------------------------- the lookup on own keys

  /** The service at startup: a stored theme name is adopted, anything else gives the default. */
  function Init(stored: Option<string>): (s: ThemeState)
    ensures Valid(s)
    ensures stored.Some? && IsTheme(stored.value) ==> s.current == stored.value
    ensures !(stored.Some? && IsTheme(stored.value)) ==> s.current == DefaultTheme
    ensures s.stored == stored
  {
    if stored.Some? && IsTheme(stored.value) then ThemeState(stored.value, stored) else ThemeState(DefaultTheme, stored)
  }

  /** `setTheme(name)`: a theme name becomes current and is stored; any other name changes nothing. */
  function SetTheme(s: ThemeState, name: string): (t: ThemeState)
    ensures IsTheme(name) ==> t == ThemeState(name, Some(name))
    ensures !IsTheme(name) ==> t == s
    ensures Valid(s) ==> Valid(t)
  {
    if IsTheme(name) then ThemeState(name, Some(name)) else s
  }

  /** `Array.prototype.indexOf`: the first position of `x`, or -1. */
  function IndexOf(xs: seq<string>, x: string): (i: int)
    ensures -1 <= i < |xs|
    ensures i == -1 <==> x !in xs
    ensures i >= 0 ==> xs[i] == x && forall j :: 0 <= j < i ==> xs[j] != x
    decreases |xs|
  {
    if |xs| == 0 then -1
    else if xs[0] == x then 0
    else
      var i := IndexOf(xs[1..], x);
      if i == -1 then -1 else i + 1
  }

  /** `toggleTheme()`: the theme after the current one in key order, wrapping round. */
  function ToggleTheme(s: ThemeState): (t: ThemeState)
    ensures Valid(t)
    ensures t.stored == Some(t.current)
  {
    var i := IndexOf(ThemeKeys, s.current);
    SetTheme(s, ThemeKeys[(i + 1) % |ThemeKeys|])
  }

  /** The cycle the themes are meant to follow. */
  function Successor(name: string): string {
    if name == "light" then "dark" else if name == "dark" then "blue" else "light"
  }

  lemma ToggleFollowsCycle(s: ThemeState)
    requires Valid(s)
    ensures ToggleTheme(s).current == Successor(s.current)
  {
    ThemeKeysAreTheKeys();
  }

  /** Three toggles bring any valid state back to its theme. */
  lemma ToggleThriceIsIdentity(s: ThemeState)
    requires Valid(s)
    ensures ToggleTheme(ToggleTheme(ToggleTheme(s))).current == s.current
  {
    ToggleFollowsCycle(s);
    ToggleFollowsCycle(ToggleTheme(s));
    ToggleFollowsCycle(ToggleTheme(ToggleTheme(s)));
  }

  /** `currentTheme()`: the colours of the current theme. */
  function CurrentTheme(s: ThemeState): (t: Theme)
    requires Valid(s)
    ensures t in Themes().Values
  {
    Themes()[s.current]
  }

  /** At startup with nothing stored, the current theme is the light one. */
  lemma CurrentThemeAtStart()
    ensures CurrentTheme(Init(None)) == Themes()["light"]
  {
  }

  /** After `setTheme(name)` with a theme name, the current theme is that name's theme. */
  lemma CurrentThemeAfterSet(s: ThemeState, name: string)
    requires IsTheme(name)
    ensures CurrentTheme(SetTheme(s, name)) == Themes()[name]
  {
  }

  /** `availableThemes()`: `Object.values(THEMES)`, in key order. */
  function AvailableThemes(): (r: seq<Theme>)
    ensures |r| == 3
    ensures forall k :: k in Themes() ==> Themes()[k] in r
  {
    ThemeKeysAreTheKeys();
    var r := seq(3, i requires 0 <= i < 3 => Themes()[ThemeKeys[i]]);
    assert forall k :: k in Themes() ==> Themes()[k] == r[IndexOf(ThemeKeys, k)];
    r
  }
}
