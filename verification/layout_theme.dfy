/**
 * `setLayoutThemeColor` of src/layout/hooks/useDataThemeChange.ts: make `theme`
 * the active theme and the `data-theme` attribute, rebuild the persisted layout
 * record, and apply the theme's accent colour.
 */
module LayoutTheme {
  import opened Wrappers
  import opened ThemeState
  import opened Palette
  import opened EpTheme

  /**
   * A theme id `setLayoutThemeColor` can handle: "default" and "light" take the
   * configured accent; any other id must name a palette entry, because the
   * source reads `.color` of what `find` returns and faults on `undefined`.
   */
  predicate Resolvable(theme: string)
  {
    theme == "default" || theme == "light" || PaletteColor(theme).Some?
  }

  /** "default" and "light" are palette ids too, so the resolvable ids are exactly the palette's. */
  lemma ResolvableIsPaletteId(theme: string)
    ensures Resolvable(theme) <==> theme in ThemeIds
  {
  }

  /** The accent colour for `theme`: the configured one for "default" and "light", the palette's otherwise. */
  function AccentFor(cfg: Config, theme: string): (r: string)
    requires Resolvable(theme)
    ensures theme == "default" || theme == "light" ==> r == cfg.epThemeColor
    ensures theme != "default" && theme != "light" ==> ThemeColorEntry(r, theme) in ThemeColors
  {
    if theme == "default" || theme == "light" then cfg.epThemeColor else PaletteColor(theme).value
  }

  /** The default `theme` argument: `getConfig().Theme ?? "light"`. */
  function DefaultTheme(cfg: Config): (r: string)
    ensures cfg.theme.Some? ==> r == cfg.theme.value
    ensures cfg.theme.None? ==> r == "light"
  {
    cfg.theme.GetOr("light")
  }

  /**
   * `setLayoutThemeColor(theme, isClick)`. The persisted record is rebuilt in
   * full: `themeColor` follows `theme` only on a click and is kept otherwise;
   * `sidebarStatus` and `epThemeColor` are carried over; the rest comes from
   * the current state.
   */
  function SetLayoutThemeColor(st: ThemeState, cfg: Config, shader: Shader, theme: string, isClick: bool): (r: ThemeState)
    requires Resolvable(theme)
    ensures r.activeTheme == theme && r.themeAttr == Some(theme)
    ensures r.storage.theme == theme
    ensures isClick ==> r.storage.themeColor == theme
    ensures !isClick ==> r.storage.themeColor == st.storage.themeColor
    ensures r.storage.sidebarStatus == st.storage.sidebarStatus
    ensures r.storage.epThemeColor == st.storage.epThemeColor
    ensures r.storage.layout == st.layout && r.storage.darkMode == st.dark
    ensures r.storage.overallStyle == st.overallStyle
    ensures r.layout == st.layout && r.dark == st.dark && r.overallStyle == st.overallStyle
    ensures r.darkClass == st.darkClass
    ensures r.epThemeColor == Some(AccentFor(cfg, theme))
    ensures ShowsAccent(r.style, shader, st.dark, AccentFor(cfg, theme))
    ensures r.style.Keys == st.style.Keys + PrimaryVars()
    ensures forall k :: k in st.style && k !in PrimaryVars() ==> r.style[k] == st.style[k]
  {
    var storageThemeColor := st.storage.themeColor;
    var record := LayoutRecord(
      layout := st.layout,
      theme := theme,
      darkMode := st.dark,
      sidebarStatus := st.storage.sidebarStatus,
      epThemeColor := st.storage.epThemeColor,
      themeColor := if isClick then theme else storageThemeColor,
      overallStyle := st.overallStyle);
    var s1 := st.(activeTheme := theme, themeAttr := Some(theme), storage := record);
    SetEpThemeColor(s1, shader, AccentFor(cfg, theme))
  }

  /** `setLayoutThemeColor()` with both arguments defaulted: the configured theme, as a click. */
  function SetLayoutThemeColorDefaults(st: ThemeState, cfg: Config, shader: Shader): (r: ThemeState)
    requires Resolvable(DefaultTheme(cfg))
    ensures r.themeAttr == Some(DefaultTheme(cfg)) && r.storage.theme == DefaultTheme(cfg)
    ensures r.storage.themeColor == DefaultTheme(cfg)
  {
    SetLayoutThemeColor(st, cfg, shader, DefaultTheme(cfg), true)
  }

  /** Everything `setLayoutThemeColor(theme, isClick)` promises about its result `r`. */
  predicate LayoutResult(st: ThemeState, cfg: Config, shader: Shader, theme: string, isClick: bool, r: ThemeState)
    requires Resolvable(theme)
  {
    && r.activeTheme == theme && r.themeAttr == Some(theme)
    && r.storage == LayoutRecord(st.layout, theme, st.dark, st.storage.sidebarStatus, st.storage.epThemeColor,
                                 if isClick then theme else st.storage.themeColor, st.overallStyle)
    && r.layout == st.layout && r.dark == st.dark && r.overallStyle == st.overallStyle
    && r.darkClass == st.darkClass
    && r.epThemeColor == Some(AccentFor(cfg, theme))
    && AccentStyle(st.style, shader, st.dark, AccentFor(cfg, theme), r.style)
  }

  lemma LayoutResultHolds(st: ThemeState, cfg: Config, shader: Shader, theme: string, isClick: bool)
    requires Resolvable(theme)
    ensures LayoutResult(st, cfg, shader, theme, isClick, SetLayoutThemeColor(st, cfg, shader, theme, isClick))
  {
  }

  /** `setLayoutThemeColor` is deterministic: its promises pin the result down completely. */
  lemma LayoutResultUnique(st: ThemeState, cfg: Config, shader: Shader, theme: string, isClick: bool,
                           r1: ThemeState, r2: ThemeState)
    requires Resolvable(theme)
    requires LayoutResult(st, cfg, shader, theme, isClick, r1) && LayoutResult(st, cfg, shader, theme, isClick, r2)
    ensures r1 == r2
  {
    AccentStyleUnique(st.style, shader, st.dark, AccentFor(cfg, theme), r1.style, r2.style);
  }

  /** Two results of `setLayoutThemeColor` in a row, compared with the second call alone. */
  lemma {:induction false} LayoutResultLastWins(st: ThemeState, cfg: Config, shader: Shader, a: string, b: string,
                                                 k1: bool, k2: bool, r1: ThemeState, r2: ThemeState, r: ThemeState)
    requires Resolvable(a) && Resolvable(b)
    requires k1 ==> k2 && a == b
    requires LayoutResult(st, cfg, shader, a, k1, r1)
    requires LayoutResult(r1, cfg, shader, b, k2, r2)
    requires LayoutResult(st, cfg, shader, b, k2, r)
    ensures r2 == r
  {
    AccentStyleLastWins(st.style, shader, st.dark, AccentFor(cfg, a), AccentFor(cfg, b), r1.style, r2.style, r.style);
  }

  /**
   * A later `setLayoutThemeColor` erases every trace of an earlier non-click
   * one: only the last theme, and the click flag of the last call, matter.
   */
  lemma LayoutThemeLastWins(st: ThemeState, cfg: Config, shader: Shader, a: string, b: string, isClick: bool)
    requires Resolvable(a) && Resolvable(b)
    ensures SetLayoutThemeColor(SetLayoutThemeColor(st, cfg, shader, a, false), cfg, shader, b, isClick)
            == SetLayoutThemeColor(st, cfg, shader, b, isClick)
  {
    var r1 := SetLayoutThemeColor(st, cfg, shader, a, false);
    LayoutResultHolds(st, cfg, shader, a, false);
    LayoutResultHolds(r1, cfg, shader, b, isClick);
    LayoutResultHolds(st, cfg, shader, b, isClick);
    LayoutResultLastWins(st, cfg, shader, a, b, false, isClick, r1,
                         SetLayoutThemeColor(r1, cfg, shader, b, isClick), SetLayoutThemeColor(st, cfg, shader, b, isClick));
  }

  /** Repeating `setLayoutThemeColor` with the same arguments changes nothing. */
  lemma LayoutThemeIdempotent(st: ThemeState, cfg: Config, shader: Shader, theme: string, isClick: bool)
    requires Resolvable(theme)
    ensures var once := SetLayoutThemeColor(st, cfg, shader, theme, isClick);
            SetLayoutThemeColor(once, cfg, shader, theme, isClick) == once
  {
    var once := SetLayoutThemeColor(st, cfg, shader, theme, isClick);
    LayoutResultHolds(st, cfg, shader, theme, isClick);
    LayoutResultHolds(once, cfg, shader, theme, isClick);
    LayoutResultLastWins(st, cfg, shader, theme, theme, isClick, isClick, once,
                         SetLayoutThemeColor(once, cfg, shader, theme, isClick), once);
  }
}
