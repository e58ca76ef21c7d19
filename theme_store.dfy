/**
 * The blog's light/dark theme store (blog/src/stores/theme.ts): the current
 * theme, the saved preference under the storage key "theme", and the
 * "dark" class on the document's root element.
 */
module ThemeStore {
  import opened Wrappers
  import opened Storage

  const ThemeKey := "theme"
  const DarkClass := "dark"

  /** The class list of `document.documentElement`. */
  class ClassList {
    var classes: set<string>

    constructor (initial: set<string>)
      ensures classes == initial
    {
      classes := initial;
    }
  }

  /** `theme.value === 'light' ? 'dark' : 'light'`. */
  function Toggled(theme: string): (t: string)
    ensures t == "light" || t == "dark"
    ensures t == "dark" <==> theme == "light"
  {
    if theme == "light" then "dark" else "light"
  }

  /** Toggling twice restores either of the two themes. */
  lemma ToggleTwice(theme: string)
    requires theme == "light" || theme == "dark"
    ensures Toggled(Toggled(theme)) == theme
  {
  }

  /** The saved theme if it is non-empty, used as it is; otherwise the system preference. */
  function InitialTheme(saved: Option<string>, prefersDark: bool): (t: string)
    ensures saved.Some? && saved.value != "" ==> t == saved.value
    ensures !(saved.Some? && saved.value != "") ==> (t == "dark" <==> prefersDark) && (t == "light" <==> !prefersDark)
  {
    if saved.Some? && saved.value != "" then saved.value
    else if prefersDark then "dark" else "light"
  }

  /** The root's classes after `applyTheme`: "dark" present exactly for the dark theme. */
  function Applied(classes: set<string>, theme: string): (r: set<string>)
    ensures DarkClass in r <==> theme == DarkClass
    ensures r - {DarkClass} == classes - {DarkClass}
  {
    if theme == DarkClass then classes + {DarkClass} else classes - {DarkClass}
  }

  class Theme {
    var theme: string
    const storage: LocalStorage
    const root: ClassList

    /** The store starts in the light theme and touches neither storage nor the root. */
    constructor (storage: LocalStorage, root: ClassList)
      ensures theme == "light" && this.storage == storage && this.root == root
    {
      theme := "light";
      this.storage := storage;
      this.root := root;
    }

    /** `initTheme`: adopt the saved or the system theme and apply it; storage is not written. */
    method InitTheme(prefersDark: bool)
      modifies this, root
      ensures theme == InitialTheme(old(storage.GetItem(ThemeKey)), prefersDark)
      ensures root.classes == Applied(old(root.classes), theme)
      ensures storage.items == old(storage.items)
    {
      var saved := storage.GetItem(ThemeKey);
      if saved.Some? && saved.value != "" {
        theme := saved.value;
      } else {
        theme := if prefersDark then "dark" else "light";
      }
      ApplyTheme();
    }

    /** `toggleTheme`: switch, apply, and save the new theme. */
    method ToggleTheme()
      modifies this, root, storage
      ensures theme == Toggled(old(theme))
      ensures root.classes == Applied(old(root.classes), theme)
      ensures storage.items == old(storage.items)[ThemeKey := theme]
    {
      theme := Toggled(theme);
      ApplyTheme();
      storage.SetItem(ThemeKey, theme);
    }

    /** `applyTheme`: put the root's "dark" class in step with the theme. */
    method ApplyTheme()
      modifies root
      ensures root.classes == Applied(old(root.classes), theme)
    {
      if theme == DarkClass {
        root.classes := root.classes + {DarkClass};
      } else {
        root.classes := root.classes - {DarkClass};
      }
    }
  }
}
