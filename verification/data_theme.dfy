/**
 * `dataThemeChange` of src/layout/hooks/useDataThemeChange.ts: switching the
 * overall light/dark style. It re-applies the current element-plus theme
 * without touching the user's stored accent choice, substitutes "default" for
 * "light" in dark mode, restores "light" when leaving dark mode if that was the
 * stored choice, and sets the root element's `dark` class to match dark mode.
 */
module DataTheme {
  import opened Wrappers
  import opened ThemeState
  import opened EpTheme
  import opened LayoutTheme

  /**
   * The theme the re-application at line 98 asks for: the store's `epTheme`, or,
   * when the store holds `undefined`, the default argument `Theme ?? "light"`.
   */
  function RequestedTheme(cfg: Config, epTheme: Option<string>): (r: string)
    ensures epTheme.Some? ==> r == epTheme.value
    ensures epTheme.None? ==> r == DefaultTheme(cfg)
  {
    epTheme.GetOr(DefaultTheme(cfg))
  }

  /**
   * The theme a `dataThemeChange` call ends on, case by case. Only a store
   * value of "light" itself is swapped for "default" in dark mode: an
   * `undefined` store value that defaults to "light" is not.
   */
  function SettledTheme(cfg: Config, dark: bool, epTheme: Option<string>, storedThemeColor: string): string
  {
    if dark && epTheme == Some("light") then "default"
    else if !dark && storedThemeColor == "light" then "light"
    else RequestedTheme(cfg, epTheme)
  }

  /**
   * `dataThemeChange(overall)`, with `epTheme` the value the element-plus
   * theme store holds when the call starts (`None` for `undefined`). Every
   * internal theme change is a non-click, so the stored `themeColor` survives.
   */
  function DataThemeChange(st: ThemeState, cfg: Config, shader: Shader, epTheme: Option<string>, overall: Option<string>): (r: ThemeState)
    requires Resolvable(RequestedTheme(cfg, epTheme))
    ensures Resolvable(SettledTheme(cfg, st.dark, epTheme, st.storage.themeColor))
    ensures var settled := SettledTheme(cfg, st.dark, epTheme, st.storage.themeColor);
            && r.themeAttr == Some(settled) && r.activeTheme == settled && r.storage.theme == settled
            && r.epThemeColor == Some(AccentFor(cfg, settled))
            && ShowsAccent(r.style, shader, st.dark, AccentFor(cfg, settled))
    ensures r.darkClass <==> st.dark
    ensures r.storage.themeColor == st.storage.themeColor
    ensures r.overallStyle == overall && r.storage.overallStyle == overall
    ensures r.dark == st.dark && r.storage.darkMode == st.dark
  {
    var s1 := st.(overallStyle := overall);
    var s2 := if epTheme == Some("light") && s1.dark then SetLayoutThemeColor(s1, cfg, shader, "default", false)
              else SetLayoutThemeColor(s1, cfg, shader, RequestedTheme(cfg, epTheme), false);
    if s2.dark then
      s2.(darkClass := true)
    else
      var s3 := if s2.storage.themeColor == "light" then SetLayoutThemeColor(s2, cfg, shader, "light", false) else s2;
      s3.(darkClass := false)
  }

  /** `setLayoutThemeColor` never reads the `dark` class, so setting it before or after is the same. */
  lemma LayoutThemeIgnoresDarkClass(st: ThemeState, cfg: Config, shader: Shader, theme: string, isClick: bool, d: bool)
    requires Resolvable(theme)
    ensures SetLayoutThemeColor(st.(darkClass := d), cfg, shader, theme, isClick)
            == SetLayoutThemeColor(st, cfg, shader, theme, isClick).(darkClass := d)
  {
    var x := st.(darkClass := d);
    LayoutResultHolds(x, cfg, shader, theme, isClick);
    LayoutResultHolds(st, cfg, shader, theme, isClick);
    var r := SetLayoutThemeColor(st, cfg, shader, theme, isClick);
    assert LayoutResult(x, cfg, shader, theme, isClick, r.(darkClass := d));
    LayoutResultUnique(x, cfg, shader, theme, isClick,
                       SetLayoutThemeColor(x, cfg, shader, theme, isClick), r.(darkClass := d));
  }

  /**
   * However many theme changes `dataThemeChange` makes on the way, its result is
   * one non-click `setLayoutThemeColor` of the settled theme: the transient
   * "default" or requested theme leaves no trace.
   */
  lemma DataThemeChangeSettles(st: ThemeState, cfg: Config, shader: Shader, epTheme: Option<string>, overall: Option<string>)
    requires Resolvable(RequestedTheme(cfg, epTheme))
    ensures Resolvable(SettledTheme(cfg, st.dark, epTheme, st.storage.themeColor))
    ensures DataThemeChange(st, cfg, shader, epTheme, overall)
            == SetLayoutThemeColor(st.(overallStyle := overall, darkClass := st.dark), cfg, shader,
                                   SettledTheme(cfg, st.dark, epTheme, st.storage.themeColor), false)
  {
    var s1 := st.(overallStyle := overall);
    var requested := RequestedTheme(cfg, epTheme);
    assert st.(overallStyle := overall, darkClass := st.dark) == s1.(darkClass := st.dark);
    if st.dark {
      var first := if epTheme == Some("light") then "default" else requested;
      LayoutThemeIgnoresDarkClass(s1, cfg, shader, first, false, true);
    } else if st.storage.themeColor == "light" {
      SettlesRestoringLight(s1, cfg, shader, requested);
    } else {
      LayoutThemeIgnoresDarkClass(s1, cfg, shader, requested, false, false);
    }
  }

  lemma SettlesRestoringLight(s1: ThemeState, cfg: Config, shader: Shader, epTheme: string)
    requires Resolvable(epTheme) && !s1.dark
    ensures SetLayoutThemeColor(SetLayoutThemeColor(s1, cfg, shader, epTheme, false), cfg, shader, "light", false).(darkClass := false)
            == SetLayoutThemeColor(s1.(darkClass := false), cfg, shader, "light", false)
  {
    LayoutThemeLastWins(s1, cfg, shader, epTheme, "light", false);
    LayoutThemeIgnoresDarkClass(s1, cfg, shader, "light", false, false);
  }

  /**
   * An `undefined` store theme is not swapped for "default" in dark mode: with
   * no configured `Theme` the call settles on "light" while dark mode is on.
   */
  lemma UndefinedStoreStaysLight(st: ThemeState, cfg: Config, shader: Shader, overall: Option<string>)
    requires st.dark && cfg.theme.None?
    ensures DataThemeChange(st, cfg, shader, None, overall).themeAttr == Some("light")
  {
  }

  /** Switching to the same overall style a second time, with the same theme store, changes nothing. */
  lemma DataThemeChangeIdempotent(st: ThemeState, cfg: Config, shader: Shader, epTheme: Option<string>, overall: Option<string>)
    requires Resolvable(RequestedTheme(cfg, epTheme))
    ensures var once := DataThemeChange(st, cfg, shader, epTheme, overall);
            DataThemeChange(once, cfg, shader, epTheme, overall) == once
  {
    var once := DataThemeChange(st, cfg, shader, epTheme, overall);
    var settled := SettledTheme(cfg, st.dark, epTheme, st.storage.themeColor);
    DataThemeChangeSettles(st, cfg, shader, epTheme, overall);
    DataThemeChangeSettles(once, cfg, shader, epTheme, overall);
    assert once.(overallStyle := overall, darkClass := once.dark) == once;
    LayoutThemeIdempotent(st.(overallStyle := overall, darkClass := st.dark), cfg, shader, settled, false);
  }
}
