# Shortcut Template Generator — a verified model of its selection logic

The Shortcut Template Generator is a single-page app. It shows a static
catalog of keyboard shortcuts, grouped by application. The user picks an
application, ticks the shortcuts (or whole categories) they want, and chooses
a page size (A4, A5, A6) and a theme (minimal, modern, bold). The app then
renders a printable cheat sheet, which it can also download as an HTML file.

This project models the logic under that UI in Dafny:

- `Seqs` holds the list operations the source gets from JavaScript. `Filter`
  is `Array.filter`: it keeps the elements that pass, in order. `Dedup` is
  `[...new Set(s)]`: it keeps the first occurrence of each element, in the
  order of first occurrence. `Subsequence(r, s)` means `r` is made of some of
  the elements of `s`, in the same relative order.
- `Shortcuts` holds the catalog shapes `Shortcut` and `ShortcutApp`, and
  `FindApp`, which is `Array.find` over the catalog.
- `Grouping` is the `reduce` that buckets shortcuts by category into a
  record. It is an imperative loop over a map plus a key-insertion list
  (`GroupByCategory`). The loop is proved against `GroupsOf`, which gives one
  group per distinct category in first-seen order. Lemmas prove that the
  groups partition the input. The record starts as an empty object literal,
  which inherits the properties of `Object.prototype`. A category label such
  as `toString` or `constructor` therefore finds a truthy value, gets no
  bucket, and the `push` throws a `TypeError`. The model returns that outcome
  instead of a grouping.
- `Selection` holds the updaters that the handlers pass to
  `setSelectedShortcuts`, written as pure functions on the old list:
  `Toggle` and `ToggleCategory`. It also holds the `filteredShortcuts`
  projection and the "category all selected" predicate.
- `Preview` holds the preview sheet's lookup tables (page size in
  millimetres, grid columns, theme styles, footer) and the key-chord layout.
  Its `Render` method groups the shortcuts the sheet is given.
- `Export` holds the download: the file-name slug, the `@page size` value and
  the HTML document around the sheet's markup.
- `AppState` holds the component state as a class `App`, with one method per
  handler. `ToggleShortcut` and `ToggleCategory` state the new selection as
  the `Selection` updater applied to the old one. The reset in the
  constructor and `SelectApp`, and `SelectAll`, state it as the app's ids in
  catalog order; `DeselectAll` states it as empty. Two invariants are kept:
  - `Valid`: no id is selected twice. Every handler keeps it.
  - `Scoped`: every selected id belongs to the current app. Every handler
    keeps it, `ToggleShortcut` when it is given an id of the current app, as
    the checklist does.

The catalog must give unique shortcut ids within each application
(`CatalogWellFormed`). The catalog data is static; the model does not check
it and requires it of the constructor.

Choices where the code decides:

- An app id that names no catalog entry keeps the old selection instead of
  clearing it: the reset only writes when an app is found.
- The reset runs only when the selected id changes. Choosing the current app
  again keeps the selection.
- The category checkbox is two-state (ticked or not). There is no "partial"
  state.

## Model

| member | source | states |
|---|---|---|
| Shortcuts.FindApp | src/App.tsx:27 | None exactly when no app has the id; otherwise the app at the first index with that id |
| Shortcuts.FoundAppWellFormed | src/App.tsx:27 | the app found in a catalog with unique ids per app has unique ids |
| Shortcuts.UniqueIdsDetermine | src/data/shortcuts.ts:1-6 | within an app with unique ids, a shortcut is determined by its id |
| Shortcuts.IdsMembership | src/App.tsx:32 | an id is among an app's mapped ids exactly when one of its shortcuts carries it |
| Grouping.CategoriesFirstSeen | src/components/ShortcutPreview.tsx:73-75 | of two listed categories, the one listed first first occurs at an earlier shortcut |
| Grouping.Bucketable | src/components/ShortcutPreview.tsx:73-76 | no shortcut's category is a property name the empty record inherits, the condition under which the reduce does not throw |
| Grouping.GroupByCategory | src/App.tsx:77-83 | the reduce throws exactly when some category is a property name inherited from `Object.prototype`; otherwise its key order is the distinct categories in first-seen order; there is a bucket exactly for each of them, and each holds that category's shortcuts in input order |
| Grouping.PushStep | src/App.tsx:78-81 | one step of the reduce (create the bucket if missing, push) turns the record of a prefix into the record of the prefix plus one shortcut |
| Grouping.GroupsOf | src/components/ShortcutPreview.tsx:93 | one group per distinct category, in first-seen order; no group is empty; a group holds exactly the input shortcuts of its category; empty input gives no groups |
| Grouping.EntriesAreGroups | src/components/ShortcutPreview.tsx:93 | listing the reduce's record in key-insertion order gives GroupsOf |
| Grouping.CategoriesMembership | src/components/ShortcutPreview.tsx:73-75 | a label gets a bucket exactly when some shortcut carries it |
| Grouping.InCategory | src/App.tsx:46 | the shortcuts kept are exactly those of the category |
| Grouping.GroupKeepsOrder | src/components/ShortcutPreview.tsx:76 | within a group, shortcuts keep their input order |
| Grouping.NoneOfCategory | src/components/ShortcutPreview.tsx:73-74 | a label never seen has no shortcuts |
| Grouping.GroupsPartition | src/components/ShortcutPreview.tsx:93-122 | the groups, listed one after another, hold every input shortcut exactly as often as the input does |
| Grouping.ExactlyOneGroup | src/components/ShortcutPreview.tsx:72-78 | each input shortcut lies in the group of its own category and in no other group, even when other categories separate it from its peers |
| Seqs.FilterMultiset | src/App.tsx:39 | `Array.filter` keeps each passing element exactly as often as it occurs, and drops every other |
| Seqs.DedupFirstSeenOrder | src/App.tsx:53 | `[...new Set(...)]` lists the distinct elements in the order of their first occurrences |
| Selection.Remove | src/App.tsx:39 | keeps exactly the ids other than the toggled one, in their order, each as often as it occurred; the toggled id occurs no more |
| Selection.RemoveAll | src/App.tsx:50 | keeps exactly the ids not in the category, in their order, each as often as it occurred; the category's ids occur no more |
| Selection.CategoryIds | src/App.tsx:45-46 | empty without an app; otherwise exactly the ids of the app's shortcuts of that category |
| Selection.AllSelected | src/App.tsx:47 | every id of the list is selected (its definition) |
| Selection.CategoryIdsInApp | src/App.tsx:45-46 | a category's ids are ids of its app |
| Selection.ToggleCategoryWithin | src/App.tsx:49-55 | a selection within a set of ids stays within it when a category within it is toggled |
| Selection.Toggle | src/App.tsx:37-41 | a selected id has every occurrence removed, the rest keeping its order and multiplicity; an unselected id is appended at the end |
| Selection.ToggleKeepsNoDup | src/App.tsx:37-41 | toggling keeps a duplicate-free selection duplicate-free |
| Selection.ToggleTwice | src/App.tsx:36-42 | toggling the same id twice restores membership; the list is restored when the id was absent, and moves the id to the end when it was present |
| Selection.ToggleCategory | src/App.tsx:47-55 | when all category ids are selected, the result is the old list minus exactly those ids, order kept, and the category is no longer all selected unless it has no ids; otherwise the result is duplicate-free, holds the old ids and all category ids, and the category is all selected |
| Selection.ToggleCategoryAppends | src/App.tsx:52-54 | completing a category keeps the old duplicate-free list in front and appends the missing category ids after it, once each |
| Selection.ToggleCategoryKeepsNoDup | src/App.tsx:49-55 | toggling a category keeps a duplicate-free selection duplicate-free |
| Selection.ToggleEmptyCategory | src/App.tsx:45-50 | a category with no ids (or no current app) leaves the selection exactly as it was |
| Selection.ToggleCategoryTwice | src/App.tsx:44-56 | toggling a partly or un-selected category twice clears exactly its ids |
| Selection.FilteredShortcuts | src/App.tsx:68-72 | a subsequence of the app's shortcuts (catalog order) holding exactly those whose id is selected; empty without an app or a selection |
| Selection.FilteredDependsOnlyOnAppIds | src/App.tsx:70 | the order of the selection, duplicates in it, and ids outside the app do not change the projection |
| Selection.FilteredAllSelected | src/App.tsx:60 | selecting all of an app's ids shows the whole app, in catalog order |
| Selection.CategorySelected | src/App.tsx:263-265 | every shortcut of a checklist group is selected (its definition) |
| Selection.SelectedIdsShown | src/App.tsx:68-72 | when every selected id belongs to the app, each of them is carried by a shown shortcut |
| Selection.CheckboxMatchesToggle | src/App.tsx:262-265 | the category checkbox is ticked exactly when toggleCategory's all-selected test holds |
| Preview.PageSizeMm | src/components/ShortcutPreview.tsx:17-21 | each page size's width and height in millimetres, the width positive and less than the height |
| Preview.PageSizeClasses | src/components/ShortcutPreview.tsx:17-21 | the `w-[..mm] min-h-[..mm]` class string formatted from those numbers |
| Preview.PageSizeClassStrings | src/components/ShortcutPreview.tsx:17-21 | the formatted class strings are exactly the source's three table entries |
| Preview.PageSizesAreIsoSizes | src/components/ShortcutPreview.tsx:17-21 | the page-size table's millimetres are the ISO 216 sizes A4, A5, A6 |
| Preview.PageSizesHalve | src/components/ShortcutPreview.tsx:17-21 | each smaller size's height is the next larger size's width, and its width is half that size's height |
| Preview.GridColumns | src/components/ShortcutPreview.tsx:24-28 | the grid class of each page size (the table) |
| Preview.ColumnCount | src/components/ShortcutPreview.tsx:24-28 | the grid class of a page size is `grid-cols-` followed by its column count: 3 for A4, 2 for A5 and A6 |
| Preview.WiderPagesHaveMoreColumns | src/components/ShortcutPreview.tsx:24-28 | a wider page never gets fewer grid columns |
| Preview.ThemeClasses | src/components/ShortcutPreview.tsx:30-69 | every theme has a style record, and all share the category-header and key-row layout classes |
| Preview.Footer | src/components/ShortcutPreview.tsx:129-130 | the footer's background, border and text classes, testing bold first, then modern, with minimal as the fallback |
| Preview.FooterPerTheme | src/components/ShortcutPreview.tsx:129-130 | each theme gets its own footer background and border; the footer text colour is the same for minimal and bold and differs only for modern |
| Preview.KeySpans | src/components/ShortcutPreview.tsx:104-116 | one span per key, with a `+` after every key but the last |
| Preview.Join | src/App.tsx:299 | `keys.join(sep)`: the keys with `sep` between neighbours |
| Preview.KeyRowLayout | src/components/ShortcutPreview.tsx:104-115 | a chord of n keys shows n badges with its keys in order and n-1 `+` separators, none after the last key |
| Preview.KeyRowMatchesChecklistLabel | src/components/ShortcutPreview.tsx:104-115 | the preview's key row reads exactly as the checklist's `keys.join(" + ")` label (src/App.tsx line 299) |
| Preview.Render | src/components/ShortcutPreview.tsx:72-78 | the sheet fails to render exactly when a category is an inherited property name; otherwise its sections are GroupsOf its shortcuts, and they list each shortcut exactly once |
| Export.IsSpace | src/App.tsx:128 | the characters JavaScript's `\s` matches |
| Export.Lower | src/App.tsx:128 | the same length, no upper-case ASCII letter left, each one turned into the same letter in lower case, and every other character unchanged |
| Export.Upper | src/App.tsx:108 | the same length, no lower-case ASCII letter left, each one turned into the same letter in upper case, and every other character unchanged |
| Export.SkipSpaces | src/App.tsx:128 | drops exactly the leading whitespace run |
| Export.Hyphenate | src/App.tsx:128 | the result has no whitespace, is no longer than the input, and each of its characters is `-` or one of the input's |
| Export.HyphenateNoSpace | src/App.tsx:128 | text without whitespace is left unchanged |
| Export.HyphenateRun | src/App.tsx:128 | one maximal whitespace run between a word and the rest becomes exactly one `-` |
| Export.HyphenateTwoWords | src/App.tsx:128 | two words separated by one space are joined by one `-` |
| Export.HyphenateIdempotent | src/App.tsx:128 | replacing whitespace runs a second time changes nothing |
| Export.LowerThenHyphenate | src/App.tsx:128 | lower-casing and replacing whitespace runs commute |
| Export.FileName | src/App.tsx:128 | the download name has no whitespace and no upper-case letter, and it ends in `-shortcuts.html` |
| Export.DefaultFileName | src/App.tsx:21 | the default title gives `keyboard-shortcuts-shortcuts.html` |
| Export.PageRule | src/App.tsx:108 | the `@page size` value is `A4`, `A5` or `A6`, and lower-cases back to the page-size key |
| Export.PageRuleInjective | src/App.tsx:108 | different page sizes give different `@page size` values |
| Export.HtmlDocument | src/App.tsx:95-122 | the document holds `<title>` + title + `</title>`, `size: ` + the page rule + `;`, and the sheet's markup |
| AppState.App.CurrentApp | src/App.tsx:27 | none exactly when no catalog app has the selected id; otherwise a catalog app with that id |
| AppState.App.FilteredShortcuts | src/App.tsx:68-72 | exactly the current app's shortcuts whose id is selected |
| AppState.App.CategoryChecked | src/App.tsx:263-273 | a current app exists and every shortcut of the category is selected |
| AppState.App.ScopedSelectionShown | src/App.tsx:68-72 | when every selected id belongs to the current app, each is carried by a shortcut the preview shows |
| AppState.App.constructor | src/App.tsx:20-34 | the defaults (title, `figma`, A4, modern); every shortcut of the default app is selected and shown, or none without that app; no id twice, and only ids of the current app |
| AppState.App.SelectApp | src/App.tsx:29-34 | a changed id that names an app selects all of that app's ids, so the whole app is shown; the same id or an unknown id keeps the selection; the rest of the state is unchanged, no id is selected twice, and after a change of id every selected id belongs to the current app |
| AppState.App.ToggleShortcut | src/App.tsx:36-42 | the selection becomes Toggle of the old one; the preview gains the shortcut with that id if it was unselected and loses it otherwise; no id is selected twice; an id of the current app keeps every selected id within that app |
| AppState.App.ToggleCategory | src/App.tsx:44-56 | the selection becomes ToggleCategory of the old one with the current app's ids of that category; a category with shortcuts has its checkbox flipped; no id is selected twice, and every selected id stays within the current app |
| AppState.App.SelectAll | src/App.tsx:58-62 | with a current app, all its ids in catalog order are selected and the whole app is shown; without one, nothing changes; every selected id belongs to the current app |
| AppState.App.DeselectAll | src/App.tsx:64-66 | the selection and the preview become empty |
| AppState.App.SetTitle | src/App.tsx:160 | only the title changes |
| AppState.App.SetPageSize | src/App.tsx:187 | only the page size changes |
| AppState.App.SetTheme | src/App.tsx:205 | only the theme changes |
| AppState.App.Checklist | src/App.tsx:75-84 | no tabs without an app; the reduce throws exactly when a category of the current app is an inherited property name; otherwise the tabs are GroupsOf the app's shortcuts and partition them |
| AppState.App.PreviewSections | src/App.tsx:318-320 | the preview throws exactly when a shown category is an inherited property name; otherwise its sections are GroupsOf the filtered shortcuts, and every shortcut in them is a selected shortcut of the current app |
| AppState.App.Download | src/App.tsx:90-131 | no file without the printable area; otherwise the slug file name and the HTML document that carries the title and the area's markup |

## Left out

- Browser I/O is left out: `window.print`, finding the printable element, reading its `outerHTML`, and the `Blob`/object-URL/anchor download. The printable area is a parameter of `Download` (absent or its markup), and the download yields the file name and the document text.
- React scheduling is left out (`useState`, `useMemo`, re-rendering). The reset inside `useMemo` is modelled as part of `SelectApp` and of the constructor. `toggleCategory` reads `selectedShortcuts` for its test and applies the updater to `prev`. Handlers run one at a time, so these are the same list, and the model uses one.
- JSX markup, the UI components, icons and every Tailwind class outside the page-size, grid, theme and footer tables are left out. The page-size classes are formatted from their millimetre numbers (`PageSizeMm`, `PageSizeClasses`).
- The catalog literal in src/data/shortcuts.ts is left out: it is data. Unique ids per app are a precondition of the constructor, not a proved fact.
- `Lower` and `Upper` map only ASCII letters. JavaScript's `toLowerCase` and `toUpperCase` also map other scripts. `\s` is modelled with JavaScript's full list of whitespace code points.
- JavaScript lists integer-like object keys first, in numeric order. The model assumes category labels are not such keys, so records list their keys in insertion order.
- A `TypeError` thrown by a `reduce` is modelled as the `None` outcome of `Render`, `Checklist` and `PreviewSections`. What React shows after an exception during rendering is left out.
