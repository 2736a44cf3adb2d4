/**
 * The state the theme hook of src/layout/hooks/useDataThemeChange.ts reads and
 * writes, gathered into one immutable record: the persisted layout record, the
 * hook's reactive values, and what it sets on the document's root element.
 */
module ThemeState {
  import opened Wrappers

  /** The layout record persisted under `$storage.layout`. */
  datatype LayoutRecord = LayoutRecord(
    layout: string,
    theme: string,
    darkMode: bool,
    sidebarStatus: Option<bool>,
    epThemeColor: Option<string>,
    themeColor: string,
    overallStyle: Option<string>)

  /** The two settings the hook reads from the platform configuration: `Theme` and `EpThemeColor`. */
  datatype Config = Config(theme: Option<string>, epThemeColor: string)

  /**
   * `darken` and `lighten` of the colour library, kept uninterpreted: each maps
   * a colour and a factor in [0, 1] to a colour.
   */
  datatype Shader = Shader(darken: (string, real) -> string, lighten: (string, real) -> string)

  datatype ThemeState = ThemeState(
    storage: LayoutRecord,          // `$storage.layout`
    layout: string,                 // `layout.value` of the layout hook
    activeTheme: string,            // `layoutTheme.value.theme`
    dark: bool,                     // `dataTheme.value`: dark mode is on
    overallStyle: Option<string>,   // `overallStyle.value`
    themeAttr: Option<string>,      // the root element's `data-theme` attribute
    darkClass: bool,                // whether the root element's class list holds `dark`
    style: map<string, string>,     // CSS custom properties set on the root element
    epThemeColor: Option<string>)   // the colour last handed to the element-plus theme store
}
