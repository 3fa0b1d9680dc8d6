/** The colour theme of frontend/src/services/ThemeContext.js: a state initialised from the
    stored preference, switched by `toggleTheme` and `setThemeValue`, and shown as the body
    class. Saving the preference (local storage and the update-theme request) is not
    modelled. */
module ThemeContext {
  import opened Common

  const Light: string := "light"
  const Dark: string := "dark"

  /** The body class for a theme. */
  function BodyClass(theme: string): (r: string)
    ensures r == "dark-theme" <==> theme == Dark
    ensures r != "dark-theme" ==> r == "light-theme"
  {
    if theme == Dark then "dark-theme" else "light-theme"
  }

  /** `theme === 'light' ? 'dark' : 'light'`. */
  function Toggled(theme: string): (r: string)
    ensures r == Dark <==> theme == Light
    ensures r != Dark ==> r == Light
  {
    if theme == Light then Dark else Light
  }

  /** Toggling twice from either theme gives it back; from any other stored text the first
      toggle gives `light` and the second `dark`. */
  lemma ToggleTwice(theme: string)
    ensures theme == Light || theme == Dark ==> Toggled(Toggled(theme)) == theme
    ensures theme != Light && theme != Dark ==> Toggled(theme) == Light && Toggled(Toggled(theme)) == Dark
  {
  }

  class ThemeState {
    var theme: string

    /** The stored value, or `light` when there is none (an empty stored value counts as none). */
    constructor(stored: Option<string>)
      ensures theme == (if Present(stored) then stored.value else Light)
    {
      theme := OrElse(stored, Light);
    }

    method ToggleTheme()
      modifies this
      ensures theme == Toggled(old(theme))
    {
      theme := Toggled(theme);
    }

    /** Only `light` and `dark` are taken; anything else leaves the theme as it is. */
    method SetThemeValue(value: string)
      modifies this
      ensures value == Light || value == Dark ==> theme == value
      ensures value != Light && value != Dark ==> theme == old(theme)
    {
      if value == Light || value == Dark {
        theme := value;
      }
    }
  }

  /** Once the theme is `light` or `dark`, no update moves it elsewhere. */
  method KeepsTwoStates(t: ThemeState, value: string, toggle: bool)
    requires t.theme == Light || t.theme == Dark
    modifies t
    ensures t.theme == Light || t.theme == Dark
  {
    if toggle {
      t.ToggleTheme();
    } else {
      t.SetThemeValue(value);
    }
  }
}
