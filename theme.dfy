/** The light/dark theme of the page (`ThemeManager`): the `data-theme`
    attribute of the document element, the class of the theme icon, and one
    entry of origin-scoped storage under the key "theme-preference". */
module Theme {
  import opened Wrappers

  const StorageKey := "theme-preference"
  const Light := "light"
  const Dark := "dark"
  /** Shown while the dark theme is active: the icon names what a click does. */
  const SunIcon := "fas fa-sun"
  const MoonIcon := "fas fa-moon"

  /** How the script tests a value read from storage: both a missing entry and
      the empty string are falsy. */
  predicate Truthy(v: Option<string>) {
    v.Some? && v.value != ""
  }

  /** Icon class for the theme `theme` (`updateIcon`). */
  function IconFor(theme: string): string {
    if theme == Dark then SunIcon else MoonIcon
  }

  /** Theme `toggle` switches to from the current attribute value, which is
      absent before anything set it. */
  function Toggled(current: Option<string>): string {
    if current == Some(Dark) then Light else Dark
  }

  /** Theme chosen from the system dark-mode signal. */
  function SystemTheme(prefersDark: bool): string {
    if prefersDark then Dark else Light
  }

  /** Theme `init` applies: the stored preference if truthy, else the system signal. */
  function InitialTheme(saved: Option<string>, prefersDark: bool): string {
    if Truthy(saved) then saved.value else SystemTheme(prefersDark)
  }

  /** What the listener on the system signal applies, if anything, given what
      storage holds when the signal changes. */
  function ListenerAction(stored: Option<string>, prefersDark: bool): Option<string> {
    if Truthy(stored) then None else Some(SystemTheme(prefersDark))
  }

  /** The icon announces the toggle's effect: the sun appears exactly when a
      click would switch to the light theme. */
  lemma IconAnnouncesToggle(theme: string)
    ensures IconFor(theme) == SunIcon <==> Toggled(Some(theme)) == Light
    ensures IconFor(theme) == MoonIcon <==> Toggled(Some(theme)) == Dark
  {
  }

  /** Toggling twice restores the theme exactly for the two known themes; any
      other attribute value ends up as "light". */
  lemma ToggleTwiceIff(theme: string)
    ensures Toggled(Some(Toggled(Some(theme)))) == theme <==> theme == Light || theme == Dark
    ensures theme != Dark ==> Toggled(Some(Toggled(Some(theme)))) == Light
  {
  }

  /** A truthy stored preference is applied verbatim, whatever the system says. */
  lemma InitPrefersStored(saved: Option<string>, prefersDark: bool)
    requires Truthy(saved)
    ensures InitialTheme(saved, prefersDark) == saved.value
    ensures InitialTheme(saved, prefersDark) == InitialTheme(saved, !prefersDark)
  {
  }

  /** Without a stored preference the theme is dark exactly when the system
      prefers dark, and light otherwise. */
  lemma InitFollowsSystem(saved: Option<string>, prefersDark: bool)
    requires !Truthy(saved)
    ensures InitialTheme(saved, prefersDark) == Dark <==> prefersDark
    ensures InitialTheme(saved, prefersDark) == Light <==> !prefersDark
  {
  }

  /** `init` always ends by storing a truthy theme, so the system-signal listener
      it registers never acts afterwards unless storage is emptied by someone else. */
  lemma ListenerDeadAfterInit(saved: Option<string>, prefersDark: bool, later: bool)
    ensures Truthy(Some(InitialTheme(saved, prefersDark)))
    ensures ListenerAction(Some(InitialTheme(saved, prefersDark)), later) == None
  {
  }

  class ThemeManager {
    /** The `data-theme` attribute of the document element. */
    var theme: Option<string>
    /** Whether the page has a theme icon element. */
    const hasIcon: bool
    /** The icon element's class. */
    var icon: string
    /** Origin-scoped storage. */
    var storage: map<string, string>

    /** The state found at page load. */
    constructor (theme: Option<string>, hasIcon: bool, icon: string, storage: map<string, string>)
      ensures this.theme == theme && this.hasIcon == hasIcon
      ensures this.icon == icon && this.storage == storage
    {
      this.theme := theme;
      this.hasIcon := hasIcon;
      this.icon := icon;
      this.storage := storage;
    }

    /** `localStorage.getItem("theme-preference")`. */
    function Stored(): Option<string>
      reads this
    {
      if StorageKey in storage then Some(storage[StorageKey]) else None
    }

    /** `t` is applied everywhere: attribute, stored preference and (if present) icon. */
    ghost predicate Applied(t: string)
      reads this
    {
      theme == Some(t) && Stored() == Some(t) && (hasIcon ==> icon == IconFor(t))
    }

    method UpdateIcon(t: string)
      modifies this`icon
      ensures icon == if hasIcon then IconFor(t) else old(icon)
    {
      if hasIcon {
        icon := if t == Dark then SunIcon else MoonIcon;
      }
    }

    /** `setTheme`: writes the attribute, the icon and storage, always. */
    method SetTheme(t: string)
      modifies this`theme, this`icon, this`storage
      ensures Applied(t)
      ensures storage == old(storage)[StorageKey := t]
      ensures !hasIcon ==> icon == old(icon)
    {
      theme := Some(t);
      UpdateIcon(t);
      storage := storage[StorageKey := t];
    }

    method Toggle()
      modifies this`theme, this`icon, this`storage
      ensures Applied(Toggled(old(theme)))
      ensures storage == old(storage)[StorageKey := Toggled(old(theme))]
      ensures !hasIcon ==> icon == old(icon)
    {
      var next := if theme == Some(Dark) then Light else Dark;
      SetTheme(next);
    }

    /** `init`, with the system signal read once as `prefersDark` (false when
        the browser offers no media queries). */
    method Init(prefersDark: bool)
      modifies this`theme, this`icon, this`storage
      ensures Applied(InitialTheme(old(Stored()), prefersDark))
      ensures storage == old(storage)[StorageKey := InitialTheme(old(Stored()), prefersDark)]
      ensures Truthy(Stored())
      ensures !hasIcon ==> icon == old(icon)
    {
      var saved := Stored();
      if saved.Some? && saved.value != "" {
        SetTheme(saved.value);
      } else if prefersDark {
        SetTheme(Dark);
      } else {
        SetTheme(Light);
      }
    }

    /** The listener `init` registers on the system signal. */
    method OnSystemChange(prefersDark: bool)
      modifies this`theme, this`icon, this`storage
      ensures ListenerAction(old(Stored()), prefersDark) == None ==>
                theme == old(theme) && icon == old(icon) && storage == old(storage)
      ensures ListenerAction(old(Stored()), prefersDark) == Some(SystemTheme(prefersDark)) ==>
                Applied(SystemTheme(prefersDark)) &&
                storage == old(storage)[StorageKey := SystemTheme(prefersDark)]
    {
      var stored := Stored();
      if !(stored.Some? && stored.value != "") {
        SetTheme(if prefersDark then Dark else Light);
      }
    }
  }

  /** Page load followed by any change of the system signal: the change is
      ignored, because `init` has already stored a theme. */
  method StartThenSystemChange(m: ThemeManager, prefersDark: bool, later: bool)
    modifies m
    ensures m.Applied(InitialTheme(old(m.Stored()), prefersDark))
    ensures m.storage == old(m.storage)[StorageKey := InitialTheme(old(m.Stored()), prefersDark)]
  {
    m.Init(prefersDark);
    ListenerDeadAfterInit(old(m.Stored()), prefersDark, later);
    m.OnSystemChange(later);
  }
}
