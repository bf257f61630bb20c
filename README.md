# Artwork catalog view: selection and paging model

This project models the logic of the single React component `App` of a
browser view. The view shows a remote artwork catalog five rows at a time
and builds up one multi-selection of artworks across all pages.

- `Artworks` defines the `Artwork` record. Its `id` is the only key the view
  compares. The module also holds the id queries on lists of records:
  `HasId` (the `some` check) and `Lookup` (the first record with an id).
- `Selection` models `onRowSelect`. `Merge` is the specification: a left
  fold over the rows the grid reports, appending each row whose id is not
  yet present. `MergeSelection` is the loop as written: copy, walk, push.
  The lemmas prove what the merge guarantees.
- `Paging` holds the page size (5), the zero-based to one-based page
  translation of `onPageChange`, and the paginator's `first` offset.
- `App.AppState` is the component's state (`data`, `totalRecords`,
  `selectedRows`, `page`). Its three transitions are page change, page
  loaded and row select. A ghost field `events` records every row the grid
  has ever reported. `Valid()` states that the selection is exactly
  `Merge([], events)`, so `SessionSelection` describes the selection of
  any reachable state.

The fetched payload is an input to `OnPageLoaded`: a list of records and a
total count.

## Model

| member | source | states |
|---|---|---|
| `Artworks.HasId` | src/App.tsx:45 | true exactly when some record of the list carries the given id |
| `Selection.AddIfAbsentStep` | src/App.tsx:45-47 | one loop step keeps the old selection as a prefix, leaves the row's id present, keeps distinct ids distinct, and adds no record other than the row |
| `Selection.MergeSelection` | src/App.tsx:42-48 | the copy-and-push loop computes exactly `Merge(selected, rows)`, the row-by-row fold |
| `Selection.MergeKeepsPrefix` | src/App.tsx:43-46 | the old selection is a prefix of the merged one, so nothing is removed or reordered |
| `Selection.MergeIds` | src/App.tsx:44-47 | an id is in the merged selection if and only if it was in the old selection or in the reported rows |
| `Selection.MergeFrom` | src/App.tsx:43-46 | every entry of the merged selection comes from the old selection or from the reported rows |
| `Selection.MergeDistinct` | src/App.tsx:44-47 | pairwise-distinct ids stay pairwise distinct, even when the reported rows repeat an id |
| `Selection.MergeFirstWins` | src/App.tsx:45 | the record kept for any id is the first record with that id in the old selection followed by the reported rows |
| `Selection.KeepsStoredRecord` | src/App.tsx:45-46 | a record already stored for an id is never replaced by a later row with the same id |
| `Selection.MergePresent` | src/App.tsx:45 | rows whose ids are all present already leave the selection unchanged |
| `Selection.MergeIdempotent` | src/App.tsx:42-50 | merging the same reported rows twice in succession gives the same selection as merging them once |
| `Selection.MergeConcat` | src/App.tsx:42-50 | two merges in succession equal one merge of the two events concatenated |
| `Selection.SessionSelection` | src/App.tsx:42-50 | starting from the empty selection of src/App.tsx:20, the selection after all events has distinct ids, holds exactly the ids ever reported, and keeps each id's first reported record |
| `Selection.UncheckKeepsRow` | src/App.tsx:42-50 | checking ids 1 and 2, then id 3, gives [1, 2, 3]; a later event reporting only id 1 (an uncheck of id 2) leaves [1, 2, 3] |
| `Paging.OffsetOfIndex` | src/App.tsx:89 | after moving to zero-based index p, the offset `(page - 1) * rowsPerPage` is `p * rowsPerPage`. It is non-negative when p is, it is a multiple of the page size, and dividing it by the page size gives back p |
| `Paging.IndexRoundTrip` | src/App.tsx:38 | turning a page's offset back into a zero-based index and adding one gives back the page |
| `App.AppState.constructor` | src/App.tsx:18-21 | the initial state has no data, total 0, an empty selection, and page 1 |
| `App.AppState.OnPageChange` | src/App.tsx:37-39 | the new page is the reported index plus one, and the paginator offset becomes index times five. Data, total and selection are unchanged |
| `App.AppState.OnPageLoaded` | src/App.tsx:32-33 | data and total are replaced by the payload's; the selection and the page are unchanged |
| `App.AppState.OnRowSelect` | src/App.tsx:42-50 | the selection becomes the merge of the old selection with the reported rows, and the old selection remains its prefix. The invariant (merge of all events so far, distinct ids) is kept. Data, total and page are unchanged |

## Left out

- The HTTP request, `response.json()` and the URL with its `page` and
  `limit` parameters (src/App.tsx:29-31). This is network I/O; only its
  result is modelled, as the `PagePayload` input to `OnPageLoaded`. That the
  fetch is issued for the current `page` is not modelled.
- The `useEffect` hook and overlapping fetches whose responses arrive out
  of order (src/App.tsx:25-27). This is asynchronous scheduling. Any
  interleaving is a sequence of `OnPageChange` and `OnPageLoaded` calls,
  each of which the model covers, but the model does not tie a payload to
  the page it was requested for.
- Reading `json.data` and `json.pagination.total` from untyped JSON, and
  what happens when they are absent (src/App.tsx:32-33). The code has no
  error handling, and the payload here is already typed.
- Rendering: the selection panel, `DataTable`, `Column` and `Paginator`
  (src/App.tsx:53-95), and the CSS imports (src/App.tsx:5-8). These are UI
  and third-party widgets whose code is not part of this model. The
  paginator's own page count is among them.
- Removing a row from the selection when it is unchecked. The code does not
  do this, and `UncheckKeepsRow` shows the selection keeping the row.
- `Paging.PageFromIndex` and `Paging.FirstOffset` use unbounded integers.
  JavaScript numbers are doubles, which is exact for every page index a
  catalog can have.
