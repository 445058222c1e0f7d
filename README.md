# Artworks table: cross-page selection and pagination, in Dafny

This project models the logic of the `ArtworksTable` React component of the
art-gallery viewer. The component shows one page of five records from the Art
Institute of Chicago catalog. It keeps a cross-page selection: a dictionary from
artwork id to artwork that survives page changes. It also keeps the page
bookkeeping: the zero-based page index, the 1-based page number in the request,
the paginator offset, the total count with its fallback, and the loading flag
around a fetch.

Layout:

- `artworks.dfy`: module `Optional` (an `Option` type) and module `Artworks`.
  `Artworks` holds the record and helpers about a page's ids (`PageIds`,
  `DistinctIds`, `IsLastWithId`).
- `selection.dfy`: module `Selection`, the selection store.
  - Each handler passes React an updater `prev => updated` that copies the map
    and edits the copy. Each updater is a method here (`ToggleRowUpdate`,
    `SelectAllUpdate`, `RemoveUpdate`, `SelectRowsUpdate`). The methods that the
    source runs as loops are loops here too.
  - Each updater is proved equal to a specification function on maps
    (`Toggled`, `SetMembership`, `Removed`, `SelectFirst`). The properties are
    proved as lemmas about those functions.
  - The two read-only predicates are `IsSelected` and `AllSelectedOnPage`.
- `paging.dfy`: module `Paging`. It holds the page size 5, the request URL with
  its 1-based page number, the paginator offset, the response shape and the
  `|| 100` total fallback.
- `table.dfy`: module `Table`, the class `ArtworksTable`.
  - Its fields are the component's state variables. Its methods are the
    handlers; each one names the fields it may change with a field-level
    `modifies` frame.
  - `fetchData` has two suspension points: `await fetch(…)` (line 27) and
    `await res.json()` (line 30). It is split at the first into `StartFetch`
    and `FinishFetch`. The second is folded into the `Option<Response>` outcome
    given to `FinishFetch`, which is sound because `fetchData` changes no state
    between the two awaits. `FetchData` runs the two halves back to back.
  - The effect `useEffect(() => fetchData(page), [page])` (lines 40-42) runs
    once when the component mounts (`Mount`) and again only when `page`
    changes. `GoToPage` is a page change followed by that effect: setting the
    page it already has requests and stores nothing.
  - `SelectedCount` is the count in the panel heading (line 168).
  - `Valid()` states that every selected artwork is stored under its own id.
    Every handler preserves it.
  - Two client methods walk through concrete scenarios: two pages, and a
    request for eight rows on a five-row page.

Modelling decisions:

- Truthiness. `!!selectionMap[art.id]` (line 48) and `if (updated[art.id])`
  (line 54) both test whether the key is present. A lookup is modelled as an
  `Option` (`Lookup`): the stored values are objects and are always truthy,
  and `undefined` is falsy, so `IsSelected` holds exactly when `art.id in m`.
- Repeated ids on a page. The `forEach` and `for` loops write the records in
  page order, so the last record with a given id wins. `IsLastWithId` states
  this. `SelectAllDistinct` gives the simpler form when the ids on the page are
  distinct.
- Fetch outcome. The result of the request is passed in as an
  `Option<Response>`:
  - `None` means `fetch` or `res.json()` rejected. Nothing is stored.
  - A body without a `pagination` object throws on line 32, after line 31 has
    already stored its records. In that case `artworks` changes and
    `totalRecords` does not.
  - `pagination.total` that is absent or `0` gives 100.
  - `loading` is false afterwards in every case.
- Selection panel. `Object.values(selectionMap)` (line 97) is modelled as the set
  of stored artworks. `PanelCount` proves that this set has one element per
  entry, so the count shown at line 168 is the map's size.

Edge cases of the code that the model keeps:

- The header is off on an empty page, because line 72 tests
  `artworks.length > 0` before `every` (`AllSelectedOnPage`).
- The panel's order is not modelled. `Object.values` (line 97) lists integer
  keys in ascending numeric order, not in the order they were selected.
- Two toggles of the same row restore its membership and every other entry.
  When the row was already selected, line 55 then stores the clicked record,
  not the one stored before (`ToggleTwice`). The two differ only if two records
  share an id.
- A fetch that fails does not always leave both records and total as they
  were. A body without a `pagination` object has its records stored on line 31
  before line 32 throws, so only the total is kept (`FinishFetch`).
- "Select first N" is clamped inside the handler: line 85 takes
  `Math.min(rowsToSelect, artworks.length)`, and a count of zero or less makes
  the loop of line 88 run zero times (`SelectionCount`).

## Model

| member | source | states |
|---|---|---|
| Selection.IsSelected | src/components/ArtWorksTable.tsx:48 | the truthiness of the looked-up entry holds exactly when the artwork's id has an entry |
| Selection.Toggled | src/components/ArtWorksTable.tsx:51-57 | the toggled id's membership flips; if it is now present it maps to the clicked record; every other id keeps its entry; keying by id is preserved |
| Selection.ToggleRowUpdate | src/components/ArtWorksTable.tsx:52-56 | the copy-and-delete-or-assign updater returns exactly the toggled map |
| Selection.ToggleTwice | src/components/ArtWorksTable.tsx:51-57 | two toggles with the same record restore that id's membership and leave all other ids untouched; an unselected row gets the original map back, a selected one ends up holding the clicked record |
| Selection.Mark | src/components/ArtWorksTable.tsx:65-66 | one step of the page loop: checked stores the record under its id, unchecked leaves no entry for it; all other ids keep their entries |
| Selection.SetMembership | src/components/ArtWorksTable.tsx:64-67 | walking the page in order adds exactly the page's ids to the keys when checked and removes exactly them when unchecked |
| Selection.SelectAllUpdate | src/components/ArtWorksTable.tsx:61-69 | the `forEach` loop over the page returns the map obtained by marking each page record in order |
| Selection.SetMembershipOutside | src/components/ArtWorksTable.tsx:61-69 | ids not on the current page keep their entries, whether the header is checked or unchecked |
| Selection.SetMembershipSelects | src/components/ArtWorksTable.tsx:64-65 | after select-all every page id is present and maps to the last page record carrying it |
| Selection.SetMembershipDeselects | src/components/ArtWorksTable.tsx:64-66 | after deselect-all no page id is present |
| Selection.SetMembershipWellKeyed | src/components/ArtWorksTable.tsx:61-69 | select-all and deselect-all keep every artwork stored under its own id |
| Selection.SelectAllDistinct | src/components/ArtWorksTable.tsx:64-65 | on a page with distinct ids, select-all stores each page record under its id |
| Selection.SetMembershipEmptyPage | src/components/ArtWorksTable.tsx:64-67 | the header toggle on an empty page leaves the selection unchanged |
| Selection.EverySelected | src/components/ArtWorksTable.tsx:72 | `artworks.every(isSelected)` holds exactly when every page record's id is in the map |
| Selection.AllSelectedOnPage | src/components/ArtWorksTable.tsx:72 | the header is ticked exactly when the page is non-empty and every page record's id is selected; it is off on an empty page |
| Selection.HeaderAfterSelectAll | src/components/ArtWorksTable.tsx:61-72 | after checking the header, it shows ticked for exactly the non-empty pages |
| Selection.HeaderAfterDeselectAll | src/components/ArtWorksTable.tsx:61-72 | after unchecking the header, it shows unticked |
| Selection.Removed | src/components/ArtWorksTable.tsx:75-81 | the id is absent afterwards whether or not it was present; other ids keep their entries; removing an absent id changes nothing |
| Selection.RemoveUpdate | src/components/ArtWorksTable.tsx:76-79 | the copy-and-delete updater returns exactly the map without that id |
| Selection.Min | src/components/ArtWorksTable.tsx:85 | `Math.min` returns one of its arguments and is at most both |
| Selection.SelectionCount | src/components/ArtWorksTable.tsx:85-88 | the number of rows the loop visits is at most the page length, 0 for a count of 0 or less, the page length for a count at or above it, and the count otherwise |
| Selection.SelectFirst | src/components/ArtWorksTable.tsx:85-90 | the keys gain exactly the ids of the first `min(count, page length)` rows (none for a count of 0 or less) |
| Selection.SelectRowsUpdate | src/components/ArtWorksTable.tsx:84-93 | the `for` loop up to `min(count, page length)` returns the map with the first that many rows written in order |
| Selection.SelectFirstPrefix | src/components/ArtWorksTable.tsx:84-93 | the ids of the first `n` rows are present and map to the last of those rows carrying them; every id outside them keeps its entry, including ids of later rows on the page |
| Selection.SelectFirstNone | src/components/ArtWorksTable.tsx:85-90 | a count of 0 or less leaves the selection unchanged |
| Selection.SelectFirstWholePage | src/components/ArtWorksTable.tsx:85-90 | a count at or above the page length selects the whole page, exactly as checking the header does |
| Selection.SelectFirstWellKeyed | src/components/ArtWorksTable.tsx:84-93 | "select first N" keeps every artwork stored under its own id |
| Selection.SelectedRows | src/components/ArtWorksTable.tsx:97 | every stored artwork is listed; with keying by id, every listed artwork is the one stored under its own id |
| Selection.PanelRowsSelected | src/components/ArtWorksTable.tsx:97 | every artwork the panel lists is selected |
| Selection.PanelCount | src/components/ArtWorksTable.tsx:97 | the panel lists exactly as many artworks as the map has entries |
| Selection.PanelAfterRemove | src/components/ArtWorksTable.tsx:75-81 | after Remove, the panel lists no artwork with that id |
| Paging.ApiPage | src/components/ArtWorksTable.tsx:28 | the API page number is at least 1 and is one more than the zero-based page index |
| Paging.Decimal | src/components/ArtWorksTable.tsx:28 | the page number is rendered as a non-empty digit string without leading zeros |
| Paging.ParseDecimalOfDecimal | src/components/ArtWorksTable.tsx:28 | reading the rendered digits back gives the number |
| Paging.RequestUrl | src/components/ArtWorksTable.tsx:27-28 | the URL is the catalog endpoint followed by the page number in digits |
| Paging.RequestUrlNamesPage | src/components/ArtWorksTable.tsx:27-28 | the URL requested for page index `p` asks the catalog for page `p + 1`, that is, page index `p` |
| Paging.RequestUrlInjective | src/components/ArtWorksTable.tsx:27-28 | different page indices give different request URLs |
| Paging.PaginatorFirst | src/components/ArtWorksTable.tsx:150 | the offset `page * 5` (page size from line 13) is a multiple of 5 and divides back to the page index |
| Paging.TotalOrDefault | src/components/ArtWorksTable.tsx:32 | the total is never 0; it is the response total when that is present and non-zero, and 100 otherwise |
| Table.ArtworksTable.constructor | src/components/ArtWorksTable.tsx:16-21 | initial state: no rows, not loading, page 0, total 0, empty selection, count 0 |
| Table.ArtworksTable.StartFetch | src/components/ArtWorksTable.tsx:24-28 | sets `loading` and requests the page given, in the 1-based numbering; nothing else changes |
| Table.ArtworksTable.FinishFetch | src/components/ArtWorksTable.tsx:30-37 | clears `loading`; a failed request keeps rows and total; a body replaces the rows; the total is replaced only when `pagination` is present, with the 100 fallback; the selection and page are untouched |
| Table.ArtworksTable.FetchData | src/components/ArtWorksTable.tsx:24-38 | the whole fetch: request URL for the page, then the same outcome rules as `FinishFetch`, `loading` false at the end, and the selection and page index left as they were |
| Table.ArtworksTable.Mount | src/components/ArtWorksTable.tsx:40-42 | the effect's first run fetches the current page with the outcome rules of `FetchData`, leaving the selection as it was |
| Table.ArtworksTable.OnPageChange | src/components/ArtWorksTable.tsx:45 | sets the page index and nothing else |
| Table.ArtworksTable.GoToPage | src/components/ArtWorksTable.tsx:40-45 | sets the page; when it differs from the old page, requests it and applies the outcome rules of `FetchData`; when it is the same page, requests nothing and leaves rows, total and `loading` unchanged; the selection is never modified |
| Table.ArtworksTable.First | src/components/ArtWorksTable.tsx:150 | the paginator offset is `page * 5`, a multiple of 5 that divides back to the current page |
| Table.ArtworksTable.ToggleRow | src/components/ArtWorksTable.tsx:51-58 | the selection becomes the toggled map; nothing else changes |
| Table.ArtworksTable.ToggleSelectAll | src/components/ArtWorksTable.tsx:61-70 | the selection becomes the current page marked checked or unchecked; nothing else changes |
| Table.ArtworksTable.RemoveFromSelection | src/components/ArtWorksTable.tsx:75-81 | the selection loses that id; nothing else changes |
| Table.ArtworksTable.SetRowsToSelect | src/components/ArtWorksTable.tsx:216 | stores the requested row count and nothing else |
| Table.ArtworksTable.HandleSelectRows | src/components/ArtWorksTable.tsx:84-93 | the selection gains the first `min(count, page length)` rows of the current page; nothing else changes |
| Table.ArtworksTable.AllSelected | src/components/ArtWorksTable.tsx:72 | the header is ticked exactly when the current page is non-empty and all its ids are selected |
| Table.ArtworksTable.SelectedCount | src/components/ArtWorksTable.tsx:168 | under the keying invariant, the panel heading's count equals the number of selected ids |

## Left out

- The HTTP request, `res.json()` and `console.error` (lines 27-30, 34). These are I/O; their result enters the model as the `Option<Response>` given to `FinishFetch`.
- Overlapping fetches after quick page changes (lines 40-42). A stale response arriving after a newer request is async interleaving. `GoToPage` runs its fetch to completion.
- The second run of the mount effect that `React.StrictMode` (`src/main.tsx`) causes in development builds. `Mount` is the single run of a production build.
- React's batching of state updates. Handlers assign fields directly, which gives the same final state for these sequential handlers.
- Any order of `Object.values(selectionMap)` (line 97). The panel is modelled as the set of stored artworks.
- `Number(e.target.value)` (line 216), with NaN and fractional counts. The count is an `int`. A fractional count such as 2.5 would make the source's loop visit one more row; that is not captured.
- A response body whose `data` is missing, or whose total is NaN or not an integer. `data` is a sequence of records and the total is an optional integer.
- JavaScript number limits. Ids, totals and counts are unbounded integers. The page index is a `nat`, because the paginator only reports non-negative pages.
- The type declaration file `src/type.ts` is not part of this model. The record's fields are the columns the table renders (lines 137-142).
- All JSX rendering (the loading placeholder row, row classes, the widgets `Checkbox`, `Paginator` and `ProgressSpinner`), CSS and inline styles.
- `src/App.tsx` and `src/main.tsx`, which are layout and bootstrap only.
