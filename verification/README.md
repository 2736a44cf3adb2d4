# Theme switching of the admin layout, modelled in Dafny

This project models the theme-state core of the admin layout's
`useDataThemeChange` hook (`src/layout/hooks/useDataThemeChange.ts`):

- the accent palette of eight `{ color, themeColor }` entries and the `find` lookup on it;
- `toggleClass`, which adds or removes a class name in an element's `className` string;
- `setLayoutThemeColor`, which makes a theme active, sets the root element's `data-theme`
  attribute, rebuilds the persisted layout record and applies the theme's accent colour;
- `setPropertyPrimary` and `setEpThemeColor`, which write the element-plus primary colour
  and its eleven tonal variants as CSS custom properties;
- `dataThemeChange`, which switches between the light and dark overall style.

The hook works by mutating Vue refs, `$storage.layout`, the element-plus theme store and
the document. Here all of that is one immutable record, `ThemeState.ThemeState`. Each
operation is a pure function from the old state to the new one. The record holds:

- the persisted layout record;
- the active theme and the `dataTheme` dark-mode flag;
- the overall style;
- the root element's `data-theme` attribute (`themeAttr`), its `dark` class and its CSS custom
  properties;
- the colour last handed to the element-plus theme store.

The colour library's `darken` and `lighten` are uninterpreted. They are the two fields of
a `Shader` value passed to every operation that shades colours. The platform
configuration (`Theme`, `EpThemeColor`) is a `Config` value passed in the same way.

JavaScript behaviour the code relies on is written out, and one number is represented:

- `className.replace(clsName, "")` cuts out the first `indexOf` occurrence of the name as
  a substring. It is not token-aware, and an empty pattern matches at index 0.
- `trim()` strips the ECMAScript WhiteSpace and LineTerminator code points from both ends.
- `Array.prototype.find` yields an `Option`.
- `??` is `Option.GetOr`.
- The shading factor `i / 10` is a double in JavaScript. The model represents it by the
  real number `i / 10`. The shader is uninterpreted, so nothing depends on the difference.

Modules, one per file: `Wrappers` (`Option`), `ClassList` (`toggleClass` and the string
functions under it), `Palette`, `ThemeState` (the records), `EpTheme` (`setPropertyPrimary`,
`setEpThemeColor`), `LayoutTheme` (`setLayoutThemeColor`), `DataTheme` (`dataThemeChange`).

Three behaviours of the code shape the model:

- **Palette miss.** Line 69 reads `.color` of the `undefined` that `find` returns for an
  id outside the palette, and so faults. The model makes the id a precondition,
  `LayoutTheme.Resolvable`. `LayoutTheme.ResolvableIsPaletteId` shows this is exactly
  membership in the palette.
- **Shading of the variants.** All eleven variants are shaded by dark mode alone
  (line 76): `darken` when dark mode is on, `lighten` when it is off. The mode (`dark` or
  `light`) only names the property. The model does the same (`EpTheme.Tone`).
- **Undefined store theme.** When the element-plus store's `epTheme` is `undefined`,
  line 98 passes it to `setLayoutThemeColor`, whose default argument (line 48) turns it
  into `Theme ?? "light"`. The dark-mode swap at line 95 compares the store value itself
  with "light", so a defaulted "light" is not swapped for "default"
  (`DataTheme.RequestedTheme`, `DataTheme.SettledTheme`, `DataTheme.UndefinedStoreStaysLight`).

## Model

| member | source | states |
|---|---|---|
| Palette.PaletteWellFormed | src/layout/hooks/useDataThemeChange.ts:15-32 | The palette has eight entries whose theme ids are pairwise distinct, and its ids are exactly light, default, saucePurple, pink, dusk, volcano, mingQing and auroraGreen. |
| Palette.Find | src/layout/hooks/useDataThemeChange.ts:68 | `find` yields nothing exactly when no entry has the id; otherwise it yields the first entry with that id. |
| Palette.PaletteColor | src/layout/hooks/useDataThemeChange.ts:68-69 | The palette lookup succeeds exactly for the eight palette ids, and the colour it gives is paired with the id in the palette. |
| Palette.PaletteColorOfEntry | src/layout/hooks/useDataThemeChange.ts:68-69 | Looking up any palette entry's id gives back that entry's colour. |
| ClassList.IndexOf | src/layout/hooks/useDataThemeChange.ts:42 | The search finds a position exactly when the pattern occurs, and that position is the leftmost occurrence. |
| ClassList.RemoveFirst | src/layout/hooks/useDataThemeChange.ts:42 | `replace(clsName, "")` leaves the string unchanged when the name does not occur. Otherwise it cuts out exactly the leftmost occurrence, shortening the string by the name's length. |
| ClassList.Trim | src/layout/hooks/useDataThemeChange.ts:42 | `trim()` returns a contiguous middle of its input with no whitespace at either end, and only whitespace is dropped on either side. |
| ClassList.TrimOfPadded | src/layout/hooks/useDataThemeChange.ts:42 | For any whitespace runs around a string with no whitespace at its ends, trimming gives back exactly that string. |
| ClassList.TrimIdempotent | src/layout/hooks/useDataThemeChange.ts:42 | Trimming twice is the same as trimming once. |
| ClassList.ToggleClass | src/layout/hooks/useDataThemeChange.ts:39-44 | With the flag set, the new class list ends in one space followed by the class name, and what precedes that suffix has no whitespace at either end. With the flag clear, the whole list has no whitespace at either end. |
| ClassList.ToggleClassRemainder | src/layout/hooks/useDataThemeChange.ts:41-43 | What `toggleClass` keeps of the old list is the old list trimmed when the name is absent. Otherwise it is the old list with its leftmost occurrence of the name cut out, then trimmed. |
| ClassList.RemoveAppended | src/layout/hooks/useDataThemeChange.ts:42-43 | After a whitespace-free name absent from a list is appended after a space, removing the name cuts out exactly the appended copy. |
| ClassList.ToggleOnIdempotent | src/layout/hooks/useDataThemeChange.ts:39-44 | Adding a whitespace-free class that was not in the list twice gives the same list as adding it once. |
| ClassList.ToggleOffAfterOn | src/layout/hooks/useDataThemeChange.ts:39-44 | Removing a class right after adding it gives the trimmed original list, and the name no longer occurs. |
| ClassList.SubstringNotToken | src/layout/hooks/useDataThemeChange.ts:42-43 | Removal works on substrings, not tokens: for any name p and any text a, removing p from the list p + a leaves trim(a). When a continues the same class ("greyish" for "grey"), what is left of that class stays in the list. |
| ClassList.RemoveFirstKeepsLater | src/layout/hooks/useDataThemeChange.ts:42 | `replace` removes only the first occurrence: every later occurrence that does not overlap it is still there, shifted left by the name's length. |
| ClassList.TrimKeepsOccurrence | src/layout/hooks/useDataThemeChange.ts:42 | `trim()` keeps every occurrence of a non-empty name with no whitespace at its ends, shifted left by the dropped prefix. |
| ClassList.OnlyFirstOccurrence | src/layout/hooks/useDataThemeChange.ts:39-44 | Removing a class from a list that holds the name twice, without overlap, leaves a list that still holds it. |
| EpTheme.NatToString | src/layout/hooks/useDataThemeChange.ts:75 | The decimal rendering of a step index is non-empty, has one digit exactly for indices below ten, and ends in the index's last digit. |
| EpTheme.NatToStringInjective | src/layout/hooks/useDataThemeChange.ts:75 | Different step indices render to different strings. |
| EpTheme.StepVarInjective | src/layout/hooks/useDataThemeChange.ts:75 | Variant property names `--el-color-primary-{mode}-{i}` for modes dark and light never collide unless mode and index are the same. |
| EpTheme.PrimaryVarIsNotAStep | src/layout/hooks/useDataThemeChange.ts:75-83 | No variant property name is the base `--el-color-primary` property. |
| EpTheme.StepVarsCount | src/layout/hooks/useDataThemeChange.ts:84-89 | A loop over steps lo..hi names exactly hi - lo + 1 distinct properties. |
| EpTheme.PrimaryVarsDisjoint | src/layout/hooks/useDataThemeChange.ts:83-89 | The base property, the two dark variants and the nine light variants are pairwise different properties. |
| EpTheme.PrimaryVarsCount | src/layout/hooks/useDataThemeChange.ts:83-89 | `setEpThemeColor` writes exactly twelve distinct custom properties. |
| EpTheme.SetPropertyPrimary | src/layout/hooks/useDataThemeChange.ts:73-78 | Writes one variant property: darken(color, i/10) in dark mode and lighten(color, i/10) otherwise. No other property and no other part of the state changes. |
| EpTheme.StepLoop | src/layout/hooks/useDataThemeChange.ts:84-89 | After a `for` loop of `setPropertyPrimary` calls, every step's property holds its tone and the property set grows by exactly the loop's names. All other properties keep their values. |
| EpTheme.SetEpThemeColor | src/layout/hooks/useDataThemeChange.ts:81-90 | The store receives the colour. The base property and all eleven variants show it, shaded by dark mode. Exactly these twelve properties are added, and nothing else in the state changes. |
| EpTheme.ShowsAccentDetermines | src/layout/hooks/useDataThemeChange.ts:81-90 | Two property maps that both show the same accent agree on all twelve accent properties. |
| EpTheme.SetEpThemeColorLastWins | src/layout/hooks/useDataThemeChange.ts:81-90 | Setting accent a and then accent b gives the same state as setting b alone. |
| EpTheme.SetEpThemeColorAddsTwelve | src/layout/hooks/useDataThemeChange.ts:83-89 | On a root element holding none of the accent properties, `setEpThemeColor` adds exactly twelve properties. |
| LayoutTheme.ResolvableIsPaletteId | src/layout/hooks/useDataThemeChange.ts:65-69 | The themes `setLayoutThemeColor` can resolve without a fault are exactly the palette ids. |
| LayoutTheme.AccentFor | src/layout/hooks/useDataThemeChange.ts:65-70 | "default" and "light" take the configured `EpThemeColor`; any other theme takes its palette entry's colour. |
| LayoutTheme.SetLayoutThemeColor | src/layout/hooks/useDataThemeChange.ts:47-71 | The theme becomes active, the `data-theme` value and the stored theme. The stored `themeColor` is replaced by the theme on a click and kept otherwise. Sidebar status and stored accent are carried over, and layout, dark mode and overall style are copied from the hook. The theme's accent is applied and no unrelated property changes. |
| LayoutTheme.SetLayoutThemeColorDefaults | src/layout/hooks/useDataThemeChange.ts:47-50 | Called without arguments, the configured theme (or "light") becomes the `data-theme` value, the stored theme and the stored `themeColor`. |
| LayoutTheme.LayoutThemeLastWins | src/layout/hooks/useDataThemeChange.ts:51-70 | A programmatic (non-click) theme change followed by a change to b gives the same state as the change to b alone. |
| LayoutTheme.LayoutThemeIdempotent | src/layout/hooks/useDataThemeChange.ts:47-71 | Applying the same theme twice with the same click flag gives the same state as applying it once. |
| DataTheme.DataThemeChange | src/layout/hooks/useDataThemeChange.ts:93-109 | The settled theme is always resolvable. It becomes the active theme, the `data-theme` value and the stored theme. Its accent is applied, shaded by dark mode. The `dark` class is present exactly in dark mode. The stored `themeColor` and dark mode are untouched, and the new overall style is recorded in the hook and in storage. |
| DataTheme.LayoutThemeIgnoresDarkClass | src/layout/hooks/useDataThemeChange.ts:47-71 | `setLayoutThemeColor` neither reads nor writes the `dark` class, so it commutes with setting it. |
| DataTheme.SettlesRestoringLight | src/layout/hooks/useDataThemeChange.ts:103-107 | Leaving dark mode with "light" as the stored choice, the re-application of the store's theme followed by "light" amounts to one non-click change to "light". |
| DataTheme.DataThemeChangeSettles | src/layout/hooks/useDataThemeChange.ts:93-109 | `dataThemeChange` equals a single non-click `setLayoutThemeColor` of the settled theme, with the new overall style and the `dark` class set from dark mode. The settled theme is "default" in dark mode when the store holds "light". Otherwise it is "light" when leaving dark mode with "light" stored, and otherwise the requested theme. |
| DataTheme.UndefinedStoreStaysLight | src/layout/hooks/useDataThemeChange.ts:95-98 | In dark mode with an `undefined` store theme and no configured `Theme`, the call settles on "light": the line-95 swap to "default" does not apply to a defaulted "light". |
| DataTheme.DataThemeChangeIdempotent | src/layout/hooks/useDataThemeChange.ts:93-109 | Calling `dataThemeChange` twice with the same store theme and overall style gives the same state as calling it once. |

## Left out

- `onReset` (lines 111-124) is outside this model. It clears tokens and storage, resets
  the router and tags, and calls `setEpThemeColor` and `toggleClass` with configured
  values.
- `toggleClass`'s target element is left out. The model works on the `className` string
  itself, so the `document.body` default and the write-back to the element are not
  modelled.
- The internals of `darken` and `lighten` are left out. They are uninterpreted functions,
  so nothing is claimed about the colours they produce.
- The element-plus theme store's own `setEpThemeColor` is reduced to recording the last
  colour passed to it.
- The store's `epTheme` value (`None` for `undefined`) is an input to
  `DataTheme.DataThemeChange`, because the code that keeps it current is not part of this model.
- Vue reactivity and the hook's returned object are left out, as are the `body` constant,
  `useLayout`, `useGlobal` and `getConfig` as modules. Their values are fields of the
  state record or of `Config`.
- Class-list strings are sequences of Unicode characters, where JavaScript strings are
  sequences of UTF-16 code units. A `className` holding a lone surrogate cannot be
  represented. For well-formed strings `replace` and `trim` agree, because every character
  `trim` removes is a single code unit.
- The persisted layout record is assumed present: `ThemeState.storage` is always a
  `LayoutRecord`. Lines 54 and 104 read `$storage.layout.themeColor` without `?.`, so the
  code faults when `$storage` or `$storage.layout` is undefined. The model does not
  represent that fault.
- An `undefined` persisted `darkMode` or `themeColor` is left out; both are plain values
  here. `sidebarStatus`, the stored `epThemeColor` and `overallStyle` are `Option`s
  because the code may carry `undefined` in them.
- `src/views/welcome/components/table/columns.tsx` is outside this model. It is the table
  column configuration of the welcome page: a cell renderer, pagination and a simulated
  loading delay.
- The `ReSegmented` segmented-control component is outside this model.
- LayoutTheme.SetLayoutThemeColor: a theme id missing from the palette is excluded by a
  precondition instead of modelled as the fault the code raises at line 69. Before that
  fault, lines 51-63 have already run. The active theme and `data-theme` hold the unknown
  id, and `$storage.layout` has been rewritten, with `themeColor` set to the id on a
  click. Only the accent step is skipped. The model does not represent this partial update.
- DataTheme.DataThemeChange: the theme it asks for (the store's `epTheme`, or the default
  argument when that is `undefined`) must likewise be in the palette. The partial update
  a miss leaves behind is not represented.
- EpTheme.SetEpThemeColor: the style map stores an empty value under a property name,
  where the DOM's `style.setProperty(name, "")` (lines 74-77 and 83) removes the property.
  This applies to an empty colour, or to a shade that `darken` or `lighten` returns empty.
  The same holds for `EpTheme.SetPropertyPrimary`, so
  `EpTheme.SetEpThemeColorAddsTwelve` counts such a property as added.
