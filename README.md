# bulkmods core, modelled in Dafny

bulkmods is a browser page for downloading many Modrinth mods at once. Under
its DOM and `fetch` code, `main.js` keeps a small session with three pieces of
state: `allMods` (every mod loaded for the chosen game version and loader),
`shownMods` (the loaded mods that match the search box) and `selectedMods`
(the slugs whose checkboxes are ticked). This project models that session and
the logic around it:

- **Version list** (`Versions`): `fetchVersions` keeps the tags that do not end
  in `-rc`, removes duplicates, and sorts them newest first with a numeric-aware
  comparison. It then selects `1.20.1` when offered, otherwise the first entry.
  When the request fails it falls back to `1.20.1` and `1.18.2`.
- **Catalog fetch** (`Catalog`): `fetchMods` requests offsets 0, 100, 200, ...
  in order and appends each page. It stops after the first page with fewer than
  100 hits. Any throw returns the empty list.
- **Search** (`Search`): `filterMods` trims and lower-cases the query. With an
  empty query it shows every loaded mod. Otherwise it shows, in their order, the
  mods whose title, slug or description contains the query.
- **Selection and download** (`Downloads`, `Session`): ticking a checkbox adds
  its slug and unticking removes it. The download button is disabled exactly
  when the selection is empty after a toggle. A reload clears the selection.
  The download button's handler takes the shown mods whose slug is selected, in
  shown order, and attempts each one once. An attempt fails with "no compatible
  version", "no .jar file" or a thrown error, or it triggers the transfer of the
  first `.jar` file of the first listed version.

The remote side is given as values:
- `SearchService` is the finite hit list for one version and loader, plus the
  offsets at which a request throws.
- A version-listing function maps a slug, game version and loader to a
  `Listing`.
- The version-tag answer is an `Option`, with `None` when the request throws.

`Session.Session` is a class because the source updates these globals in place.
The list computations (normalisation, filtering, classification) are functions
with lemmas. The two loops of the source, the page walk and the download loop,
are methods with loop invariants.

The model follows what the source does:
- Reload shows every loaded mod even when the search box still holds text.
- A search that shows nothing disables the download button, and only a later
  toggle enables it again. Until then a press of the button does nothing, even
  with mods selected.
- `endsWith("-rc")` keeps numbered candidates such as `1.20.1-rc1` in the list.
  `Versions.NumberedCandidateKept` shows this.

There is no result ceiling, no cancellation of superseded fetches, no debounce,
no category facet, no "primary" file flag, no delay between downloads and no
success/failure counters. The model has none of these either.

## Model

| member | source | states |
|---|---|---|
| `Seqs.Filter` | main.js:109-113 | `Array.prototype.filter`: the result is an order-preserving subsequence; an element is in it iff it is in the input and satisfies the predicate; each kept element keeps its multiplicity |
| `Text.ContainsIff` | main.js:110-112 | `includes` holds exactly when the query occurs at some position of the text |
| `Text.TrimStart` | main.js:105 | the leading-white-space part of `trim`: the result is a suffix of the input, everything cut is white space, and the result does not start with white space |
| `Text.TrimEnd` | main.js:105 | the trailing-white-space part of `trim`: the result is a prefix, everything cut is white space, and the result does not end with white space |
| `Text.Trim` | main.js:105 | `trim` returns the input with the white space at both ends cut: an infix with only white space before and after it. The result is empty iff the input is all white space; otherwise it starts and ends with non-white-space |
| `Text.TrimLowerCommute` | main.js:105 | trimming and lower-casing commute, and lower-casing is idempotent |
| `Versions.AtMostTotalPreorder` | main.js:22 | the numeric-aware comparison is total, transitive and reflexive, so sorting by it is well defined |
| `Versions.NumbersCompareByValue` | main.js:22 | with `numeric: true`, after a common prefix ending in a non-digit, digit runs compare by numeric value ("1.20.10" after "1.20.2") |
| `Versions.StableNamesSpec` | main.js:19-20 | filter-then-map keeps exactly the tag names that do not end in `-rc` |
| `Versions.DedupSpec` | main.js:21 | `Array.from(new Set(...))` has no duplicates and the same members as its input |
| `Versions.InsertSpec` | main.js:22 | inserting into a newest-first list adds exactly one element and keeps the list newest first |
| `Versions.SortSpec` | main.js:22 | the sort returns a permutation of its input ordered newest first |
| `Versions.NormaliseSpec` | main.js:19-22 | the version list holds exactly the tag names not ending in `-rc`, each once, ordered newest first |
| `Versions.DefaultChoiceSpec` | main.js:30 | the default is "1.20.1" when offered, otherwise the newest version; an empty list selects "" |
| `Versions.LoadVersions` | main.js:14-35 | a failed request installs exactly ["1.20.1", "1.18.2"] with "1.20.1" selected; a successful one installs the normalised list |
| `Versions.LoadVersionsSpec` | main.js:19-30 | after a successful load the options are duplicate-free, newest first and without `-rc` names, and the selection is "1.20.1" or else the first option |
| `Versions.NumberedCandidateKept` | main.js:19 | `endsWith("-rc")` does not drop the tag "1.20.1-rc1" |
| `Catalog.FetchMods` | main.js:38-58 | requests are the offsets 0, 100, 200, ... in increasing order. Every request but the last returned a full page. Without a throw, the result is the in-order concatenation of the pages, it equals the whole hit list, and the last page is short. With a throw, the walk ends at the throwing request and returns the empty list |
| `Catalog.RequestCounts` | main.js:41-52 | 250 hits take requests at 0, 100 and 200, the last returning 50; 200 hits take the same three, the last one empty |
| `Search.FilterModsSpec` | main.js:104-114 | an empty trimmed, lower-cased query shows every loaded mod. Otherwise the shown mods are an order-preserving subsequence of the loaded ones, holding exactly the mods whose title, slug or description (missing as "") contains the query, with their multiplicities |
| `Search.ShortcutAgrees` | main.js:106-113 | the `if (!q)` branch gives the same list as filtering with the empty query would |
| `Search.EmptyQueryKeepsAll` | main.js:106-107 | every mod matches the empty query |
| `Search.CaseInsensitive` | main.js:105-112 | the search ignores the case of the query |
| `Search.BlankQueryShowsAll` | main.js:105-107 | a query of white space only shows every loaded mod |
| `Downloads.FirstJar` | main.js:152 | `find` returns the position of the first file whose name ends in ".jar", or nothing when no file does |
| `Downloads.Batch` | main.js:138 | the batch is an order-preserving subsequence of the shown mods. It holds exactly the shown mods whose slug is selected, each as often as it is shown. An empty selection gives an empty batch |
| `Downloads.OutcomeSpec` | main.js:145-167 | each attempt concerns its own mod. A throw gives an error. No listed version gives "no compatible version". A first version without a `.jar` gives "no .jar file". Otherwise the transfer uses the first `.jar` file of the first version |
| `Downloads.AttemptAll` | main.js:142-168 | the loop attempts every mod of the batch once, in order, and carries on after every failure |
| `Session.Session.constructor` | main.js:10-12 | the session starts with no loaded, shown or selected mods |
| `Session.Session.FetchVersions` | main.js:14-36 | the version control gets the options and selection of `LoadVersions`, and the fallback pair on failure |
| `Session.Session.ChooseFilters` | main.js:121-122 | the version and loader that a reload reads are the user's choice |
| `Session.Session.ReloadMods` | main.js:118-127 | reload clears the selection and disables the button. `allMods` becomes the fetch result for the current version and loader, and `shownMods` equals it |
| `Session.Session.RenderMods` | main.js:60-66 | rendering an empty list disables the download button and otherwise leaves it alone |
| `Session.Session.FilterShown` | main.js:104-116 | the search recomputes `shownMods` from `allMods` and leaves the selection untouched |
| `Session.Session.Toggle` | main.js:74-78 | checking adds the slug and unchecking removes it; afterwards the button is disabled iff the selection is empty |
| `Session.Session.Download` | main.js:136-170 | a disabled button fires no click, so nothing is attempted; neither is anything with nothing selected. Otherwise each shown mod whose slug is selected is attempted once, in shown order, and classified by `Outcome` on its listing for the current version and loader |
| `Session.Session.Start` | main.js:172-175 | page load installs the version list, then loads all mods for the chosen version and the unchanged loader, with an empty selection and the button disabled |

## Left out

- DOM construction, styling and element look-ups (main.js:2-8, 67-101) are not modelled. Of `renderMods` only the rule "an empty list disables the download button" remains.
- The `statusDiv` messages are not modelled.
- URL and facet building, `encodeURIComponent`, `fetch` and `resp.json()` are replaced by the values described above.
- The hidden-anchor click is recorded as a `Triggered(mod, filename, url)` attempt.
- `async`/`await` interleaving is not modelled. Each handler runs to completion before the next event. A toggle or a second reload arriving while a fetch is pending is therefore not modelled.
- Event-listener wiring (main.js:129-134) is not modelled. Each handler is a method of `Session.Session`.
- The ticked state of the checkboxes is not modelled. `renderMods` redraws them unticked while the selection persists. `Toggle` takes the new checked state as input.
- A search server that always returns full pages would make the source loop forever. The model's `SearchService` is finite, so its page walk always ends.
- A version-tag answer that throws partway through decoding is modelled like a failed request (`None`). The source's catch block treats both the same.
- Versions.AtMostTotalPreorder: `localeCompare` with ICU collation is modelled as a natural-order compare. Digit runs compare as numbers. Other characters compare by code point after ASCII case folding. Characters below '0' sort before numbers and the rest sort after. Full ICU collation tables and locale are not modelled.
- Text.TrimLowerCommute: `toLowerCase` is modelled for ASCII letters only. Unicode case mapping needs tables that are not part of this model.
- Versions.SortSpec: does not state stability. JavaScript's sort is stable and `Insert` places a new element before equal ones, so the model sorts stably too, but no lemma proves it.
