# fredapi: point-in-time panels of FRED series, modelled in Dafny

`fredapi` is a small client for the FRED web service of the Federal Reserve
Bank of St. Louis. Its class `FredAPI` has two operations:

- `search_series` returns the `seriess` listing of a search response as a
  table and copies the response's other top-level fields into the table's
  attributes.
- `get_panel` fetches the revision history ("ALFRED" vintages) of one
  series. It asks only for the realtime range from the earliest to the
  latest requested observation date. The fetch runs page by page until the
  declared `count` is reached. It then builds a *point-in-time panel*: for every requested
  observation date, the records whose realtime period holds that date. Each
  date keeps at most `window` of them when `window` is positive, all of
  them when it is 0, and none when it is negative; they are ordered latest
  `date` first and numbered `periods_back` = 1, 2, ...

This project models that pipeline and proves what it promises:

- the join and filter keep exactly the records in force on each date, both
  ends of the realtime period included;
- the window keeps the `min(window, k)` latest records of each date;
- the ranks run 1..k, latest first;
- the table is keyed uniquely by (observation date, periods back);
- the realtime range the request asks for loses no record;
- pagination collects a gap-free, duplicate-free prefix of the server's list.

## Layout

| file | module | what it holds |
|---|---|---|
| `types.dfy` | `FredTypes` | dates, revision records, JSON fields, errors, results, tables with attributes |
| `metadata.dfy` | `Metadata` | the sidecar of a response and the loop that writes it into a table's attributes |
| `pagination.dfy` | `Pagination` | a stub server and the pagination loop |
| `ordering.dfy` | `Ordering` | latest-first sort of records; ascending distinct group keys |
| `panel.dfy` | `PanelBuilder` | join, filter, group, window, rank, long-form assembly |
| `panel_properties.dfy` | `PanelProperties` | lemmas about the panel |
| `fredapi.dfy` | `FredApi` | the realtime range, `SearchSeries`, `GetPanel` |
| `scenario.dfy` | `RevisionScenario` | a worked case: two revisions of one period |

### How the model represents the source

- Dates are whole day numbers. The open-ended realtime end FRED reports
  (9999-12-31) is one more day number.
- An observation's `value` is kept as the text the service sends.
- The panel is produced in long form: one `PanelRow` per
  (observation date, periods back) pair that has a cell, ordered by
  observation date, then by periods back. This is the stacked table without
  its padding rows (see "Left out").
- Ties in `date` are broken by a stable sort: of two records with the same
  `date`, the one fetched first ranks first. This matches `nlargest`'s
  default `keep='first'`.

### Behaviour as coded

The model follows the code in these cases, which it handles in ways one
might not expect from the library's description:

- An empty list of observation dates is an error, not an empty panel. The
  earliest of no dates cannot be formatted as a day
  (`fredapi/__init__.py:71`).
- A history with no records at all is an error, not an empty panel. The
  empty table has no `realtime_start` column (`fredapi/__init__.py:90-91`).
- A missing `count` field is an error, and so is a `count` that is not a
  number (`fredapi/__init__.py:83`).
- `nlargest` with its default `keep='first'` never returns more than
  `window` rows, ties or not (`fredapi/__init__.py:107`).
- `window` defaults to 24 (`fredapi/__init__.py:50`). A call that leaves it
  out keeps the 24 latest records per date. It does not skip the window
  step, which only an explicit `window=0` does. `FredApi.GetPanel` has the
  same default.
- A negative `window` is truthy. The window step therefore runs and keeps
  nothing, so the panel is empty (`fredapi/__init__.py:105-108`).
- Repeated observation dates form one group. The cross merge pairs every
  occurrence of a date with every occurrence of a record, so the group holds
  each qualifying record (repeats of the date) × (repeats of the record)
  times (`fredapi/__init__.py:98-106`, `PanelProperties.GroupCount`).

## Model

| member | source | states |
|---|---|---|
| Metadata.Sidecar | fredapi/__init__.py:44 | the metadata holds every key of the response except the listing key, each with its value unchanged |
| Metadata.AttachAttributes | fredapi/__init__.py:119-120 | after the loop over the metadata the attributes are the old attributes overwritten by every metadata entry |
| Pagination.Page | fredapi/__init__.py:84-87 | the page served at an offset is non-empty while records remain, and appended to the records before the offset it gives the next min(limit, remaining) records of the list |
| Pagination.Respond | fredapi/__init__.py:74-87 | every response carries its page as the `observations` listing, and the same sidecar (the server's other fields) at every offset |
| Pagination.FetchObservations | fredapi/__init__.py:77-87 | fails exactly when `count` is missing or not a number. Otherwise it returns the response's sidecar and a prefix of the served list at least `count` long. Follow-up request i used offset (i+1)·limit, which was below `count`. The whole list is collected when `count` is its length. Nothing is collected only when the list is empty or the page size is 0 |
| Ordering.InsertByDate | fredapi/__init__.py:111 | inserting into a latest-first sequence keeps it latest first and adds exactly the new record |
| Ordering.SortByDate | fredapi/__init__.py:111 | the result is latest first and a permutation of the input |
| Ordering.InsertKey | fredapi/__init__.py:106 | inserting a date into ascending distinct keys keeps them ascending and distinct, and adds exactly that date |
| Ordering.GroupKeys | fredapi/__init__.py:106 | the group keys are strictly ascending and are exactly the dates that occur |
| PanelBuilder.Pairs | fredapi/__init__.py:98 | one pair per record, in order: pair i is (the date, record i) |
| PanelBuilder.Cross | fredapi/__init__.py:98 | the cross product has \|dates\|·\|records\| pairs, and a pair occurs iff its date is requested and its record fetched |
| PanelBuilder.Visible | fredapi/__init__.py:101-102 | each pair keeps its multiplicity if its date lies inside its realtime period, both ends included, and is dropped otherwise |
| PanelBuilder.GroupOf | fredapi/__init__.py:106 | the group of a date holds every pair of that date with its multiplicity, and nothing else |
| PanelBuilder.Window | fredapi/__init__.py:105-108 | the window keeps only records of its group. It keeps all k of them for window 0, none for a negative window and min(window, k) for a positive one |
| PanelBuilder.Rank | fredapi/__init__.py:111-113 | one row per kept record, all of the observation date. Row i has periods back i+1, and the rows run latest `date` first |
| PanelBuilder.DateRows | fredapi/__init__.py:106-113 | every row of one date's block carries that date |
| PanelBuilder.Assemble | fredapi/__init__.py:116-122 | every row of the assembled table carries one of the group keys |
| PanelBuilder.BuildPanel | fredapi/__init__.py:95-122 | every row of the panel carries a requested observation date |
| PanelProperties.CrossCount | fredapi/__init__.py:98 | each (date, record) pair occurs in the cross product (occurrences of the date) × (occurrences of the record) times |
| PanelProperties.GroupCount | fredapi/__init__.py:98-106 | the group of d holds a record in force on d (occurrences of d) × (occurrences of the record) times, and a record not in force on d never |
| PanelProperties.VisibleIffInclusive | fredapi/__init__.py:98-102 | a pair survives join and filter iff its date is requested, its record fetched and realtime_start <= date <= realtime_end |
| PanelProperties.GroupIffQualifying | fredapi/__init__.py:101-106 | the group of date d is exactly the fetched records whose realtime period holds d, for a requested d |
| PanelProperties.WindowIsTopK | fredapi/__init__.py:107 | with a positive window every record dropped is no later than every record kept |
| PanelProperties.RankIsPermutation | fredapi/__init__.py:111-113 | a strictly later `date` gets a strictly smaller periods back, and the rows report exactly the kept records' (value, date) cells, each as often as it is kept |
| PanelProperties.PanelRowsFor | fredapi/__init__.py:104-116 | the panel's rows for date d are the ranked window of d's visible records |
| PanelProperties.PanelRowsAreVisible | fredapi/__init__.py:98-116 | every panel row pairs a requested date with a fetched record in force on that date, and reports that record's value and date |
| PanelProperties.PanelKeysUnique | fredapi/__init__.py:116 | the panel is ordered by (observation date, periods back), so no two rows share that key |
| PanelProperties.PanelSkipsBlindDates | fredapi/__init__.py:101-106 | a date that sees no fetched record has no row |
| PanelProperties.PanelWindowBypass | fredapi/__init__.py:105 | with window 0 the rows of a date report exactly the cells of all its visible records |
| PanelProperties.PanelWindowCap | fredapi/__init__.py:105-108 | with a positive window a date has min(window, k) rows, and every visible record left out is no later than every row kept |
| PanelProperties.RankOfWindow | fredapi/__init__.py:107-113 | the ranked window of one group has min(window, k) rows, each no earlier than any record the window dropped |
| PanelProperties.PanelRanks | fredapi/__init__.py:111-113 | within a date the periods back run 1..k, and a later `date` has a smaller periods back |
| PanelProperties.PanelNegativeWindow | fredapi/__init__.py:105-108 | a negative window gives the empty panel |
| FredApi.RequestRange | fredapi/__init__.py:71-72 | fails exactly on no dates. Otherwise it returns two of the dates that bound all of them |
| FredApi.RequestRangeSuffices | fredapi/__init__.py:71-72 | asking only for records overlapping [earliest, latest] date gives the same panel as the whole history |
| FredApi.PrefixPanelIsVisible | fredapi/__init__.py:83-102 | a panel built from a prefix of the history reports only records of the history in force on their row's date |
| FredApi.SearchSeries | fredapi/__init__.py:40-48 | fails when `seriess` is missing or not a listing. Otherwise the table is the listing and its attributes are the response's other fields |
| FredApi.GetPanel | fredapi/__init__.py:50-122 | `window` defaults to 24. Fails exactly on no dates, a missing or non-numeric `count`, or an empty first page (empty history or page size 0), each with its own error. Otherwise the attributes are the response's sidecar and every row is a record in force on its date. When `count` is the history's length the rows are the panel of the whole history |
| RevisionScenario.RevisionInForce | fredapi/__init__.py:98-122 | a date inside the first revision's period gets that revision, and a date inside the later revision's period gets the later one, each one period back |

## Left out

- HTTP requests, `raise_for_status`, the API key, the base URL and the query
  parameters are left out. A search response is an input; the panel's
  responses come from a stub server (`Pagination.Server`).
- The stub server serves its whole list for any realtime range.
  `FredApi.RequestRangeSuffices` shows that the range the client asks for
  loses no record the panel needs.
- `pd.to_datetime` parsing of dates is not modelled: dates arrive as day
  numbers.
- Pandas NaN padding is not modelled. `pivot` followed by
  `stack(future_stack=True)` emits a padding row for each
  (observation date, periods back) pair that has no cell; the model has no
  such rows. The column layout of the pivot (`value`/`date` levels) is
  also left out.
- Pagination.FetchObservations: when the server declares a positive
  `count`, requires a page size above zero and a `count` no larger than the
  list the server holds. Otherwise the source loop keeps asking for empty
  pages and never ends. That non-terminating run is not modelled. Every
  server on which the loop stops is allowed: one with no `count`, a
  non-numeric one, or a `count` of 0 or less, whatever its page size.
- FredApi.GetPanel: states the rows as the panel of the whole history only
  when `count` equals the history's length. For other counts it states that
  every row is a record of the history in force on its date.
- Tie order is fixed. `sort_values` uses an unstable sort by default, so
  the source does not fix the order of records with equal `date`; the
  model fixes it by a stable sort.
- The table attributes (`df.attrs`) are a map value that
  `Metadata.AttachAttributes` rebuilds. Aliasing of the attribute dictionary
  is not modelled.
- The `FredAPI` constructor is not modelled: it only stores the key and the
  base URL.
