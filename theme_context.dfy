/** The theme preference: a three-state cycle system → light → dark → system,
    persisted under its own storage key, resolved against the platform's
    colour scheme, with a fixed icon and label per state. */
module ThemeContext {
  import opened Wrappers

  /** The user's preference. */
  datatype ColorScheme = Light | Dark | System

  /** What a preference resolves to on screen. */
  type Resolved = s: ColorScheme | s != System witness Light

  /** The order `toggleTheme` cycles through. */
  const THEMES: seq<ColorScheme> := [System, Light, Dark]

  /** The stored spelling of a preference. */
  function Name(p: ColorScheme): string
  {
    match p
    case Light => "light"
    case Dark => "dark"
    case System => "system"
  }

  /** Accept a saved string only if it is one of the three names. */
  function ParseScheme(saved: string): (r: Option<ColorScheme>)
    ensures r.Some? <==> (saved == "light" || saved == "dark" || saved == "system")
    ensures r.Some? ==> Name(r.value) == saved
  {
    if saved == "light" then Some(Light)
    else if saved == "dark" then Some(Dark)
    else if saved == "system" then Some(System)
    else None
  }

  /** Every stored name reads back as the preference it names. */
  lemma ParseName(p: ColorScheme)
    ensures ParseScheme(Name(p)) == Some(p)
  {
  }

  /** `themes.indexOf(themePreference)`. */
  function IndexOf(p: ColorScheme): (i: nat)
    ensures i < |THEMES| && THEMES[i] == p
    ensures forall j :: 0 <= j < |THEMES| && THEMES[j] == p ==> j == i
  {
    match p
    case System => 0
    case Light => 1
    case Dark => 2
  }

  /** The preference after one toggle: the next element of THEMES, cyclically. */
  function Next(p: ColorScheme): ColorScheme
  {
    THEMES[(IndexOf(p) + 1) % |THEMES|]
  }

  /** The toggle order is system → light → dark → system: it never stays put,
      and three toggles come back to the start. */
  lemma NextCycle(p: ColorScheme)
    ensures Next(System) == Light && Next(Light) == Dark && Next(Dark) == System
    ensures Next(p) != p
    ensures Next(Next(Next(p))) == p
  {
  }

  /** The platform's report (light, dark, or nothing) normalised to a scheme:
      dark exactly when the platform says "dark". */
  function NormaliseScheme(reported: Option<string>): (r: Resolved)
    ensures r == Dark <==> reported == Some("dark")
    ensures r == Light <==> reported != Some("dark")
  {
    if reported == Some("dark") then Dark else Light
  }

  /** The scheme the screen uses: the platform's for "system", the preference
      itself otherwise. */
  function Resolve(preference: ColorScheme, system: Resolved): (r: Resolved)
    ensures preference == System ==> r == system
    ensures preference != System ==> r == preference
  {
    if preference == System then system else preference
  }

  /** The icon shown for a preference; listed in the toggle order of THEMES. */
  function ThemeIcon(preference: ColorScheme): (r: string)
    ensures r == ["phone-portrait", "sunny", "moon"][IndexOf(preference)]
  {
    match preference
    case Light => "sunny"
    case Dark => "moon"
    case System => "phone-portrait"
  }

  /** The upper-case form of a lower-case ASCII letter. */
  function Capitalise(c: char): char
  {
    if 'a' <= c <= 'z' then (c as int - 'a' as int + 'A' as int) as char else c
  }

  /** The label shown for a preference: the stored name, capitalised; listed in
      the toggle order of THEMES. */
  function ThemeLabel(preference: ColorScheme): (r: string)
    ensures r == ["System", "Light", "Dark"][IndexOf(preference)]
    ensures r == [Capitalise(Name(preference)[0])] + Name(preference)[1..]
  {
    match preference
    case Light => "Light"
    case Dark => "Dark"
    case System => "System"
  }

  /** The icons tell the preferences apart, and each label is the stored name
      with its first letter capitalised. */
  lemma IconAndLabelMappings(p: ColorScheme, q: ColorScheme)
    ensures p != q ==> ThemeIcon(p) != ThemeIcon(q) && ThemeLabel(p) != ThemeLabel(q)
    ensures ThemeLabel(p) == [Capitalise(Name(p)[0])] + Name(p)[1..]
  {
  }

  /** The fixed icon and label of each preference. */
  lemma IconAndLabelTable()
    ensures ThemeIcon(Light) == "sunny" && ThemeLabel(Light) == "Light"
    ensures ThemeIcon(Dark) == "moon" && ThemeLabel(Dark) == "Dark"
    ensures ThemeIcon(System) == "phone-portrait" && ThemeLabel(System) == "System"
  {
  }

  /** The theme provider's state: the preference, the platform scheme it last
      heard of, and the value stored under the key "user_theme_preference" (None when absent or
      unreadable). Writing the key can fail; that is a parameter. */
  class ThemeProvider {
    var themePreference: ColorScheme
    var systemColorScheme: Resolved
    var saved: Option<string>

    /** Mounting: the preference starts at "system" and the platform scheme is
        read once and normalised. */
    constructor (reported: Option<string>, saved: Option<string>)
      ensures themePreference == System
      ensures systemColorScheme == NormaliseScheme(reported)
      ensures this.saved == saved
    {
      themePreference := System;
      systemColorScheme := NormaliseScheme(reported);
      this.saved := saved;
    }

    /** The scheme currently in use: the platform's under "system", the
        preference itself otherwise; never "system". */
    function CurrentColorScheme(): (r: Resolved)
      reads this
      ensures r == Light || r == Dark
      ensures themePreference == System ==> r == systemColorScheme
      ensures themePreference != System ==> r == themePreference
    {
      Resolve(themePreference, systemColorScheme)
    }

    /** Adopt the saved preference if it is one of the three names; any other
        value, or none, leaves the preference as it is. */
    method LoadTheme()
      modifies this`themePreference
      ensures saved.Some? && ParseScheme(saved.value).Some? ==> Name(themePreference) == saved.value
      ensures !(saved.Some? && ParseScheme(saved.value).Some?) ==> themePreference == old(themePreference)
    {
      if saved.Some? {
        var parsed := ParseScheme(saved.value);
        if parsed.Some? {
          themePreference := parsed.value;
        }
      }
    }

    /** The platform reports a new colour scheme. */
    method SystemSchemeChanged(reported: Option<string>)
      modifies this`systemColorScheme
      ensures systemColorScheme == NormaliseScheme(reported)
    {
      systemColorScheme := NormaliseScheme(reported);
    }

    /** Move to the next preference, then persist its name; a failed write is
        swallowed and the in-memory preference has moved regardless. */
    method ToggleTheme(writeFails: bool)
      modifies this`themePreference, this`saved
      ensures themePreference == Next(old(themePreference))
      ensures writeFails ==> saved == old(saved)
      ensures !writeFails ==> saved == Some(Name(themePreference))
    {
      var currentIndex := IndexOf(themePreference);
      var nextTheme := THEMES[(currentIndex + 1) % |THEMES|];
      themePreference := nextTheme;
      if !writeFails {
        saved := Some(Name(nextTheme));
      }
    }
  }

  /** A toggled preference whose write succeeded is what the next launch loads. */
  method ToggleThenRelaunch(provider: ThemeProvider, reported: Option<string>) returns (next: ThemeProvider)
    modifies provider
    ensures fresh(next)
    ensures provider.themePreference == Next(old(provider.themePreference))
    ensures next.themePreference == provider.themePreference
  {
    provider.ToggleTheme(false);
    next := new ThemeProvider(reported, provider.saved);
    ParseName(provider.themePreference);
    next.LoadTheme();
  }
}
