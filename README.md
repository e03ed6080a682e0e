# Music catalog API — verified model

A Dafny model of the core of a small FastAPI music service
(`backend/app/main.py`). At startup the service loads a JSON list of track
records into the in-memory list `tracks_db` and numbers each record with its
position. Three read-only endpoints then work on that list:

- `/search?q=` keeps, in catalog order, every track whose lower-cased title,
  artist or album contains the lower-cased query;
- `/tracks/{id}` returns the record at position `id`, or 404 "Track not found";
- `/stream/{id}` applies the same guard, reads the record's `audio_path`, and
  answers 404 "Audio file not found" when that file is absent under the audio
  root. Otherwise it streams the file as `audio/mpeg`.

Layout:

- `wrappers.dfy` (`Wrappers`): `Option` for absent JSON keys, `Result` for raised exceptions.
- `text.dfy` (`Text`): `Lower` (for `str.lower()`), `Contains` (what "`needle` occurs in `hay`" means), and `In` (Python's `needle in hay`, proved equal to `Contains`).
- `catalog.dfy` (`CatalogStore`): the `Track` record; the `Catalog` class for the global `tracks_db`, with `Load` and its numbering loop `AssignIds`; `WithIds`, the numbered catalog as a function, and its properties.
- `search.dfy` (`TrackSearch`): the search filter and its soundness, completeness, order, case and empty-query properties.
- `lookup.dfy` (`TrackLookup`): lookup by id and stream selection. It also relates them to each other, to loading and to search.

The endpoints take the catalog's contents (`tracks` of the loaded `Catalog`)
as their argument `db`, where the source reads the module global. The
catalog is never written after startup, so nothing is lost.

Where the code and its comments or description disagree, the model follows
the code:

- The comment on the numbering loop says an id is added "if absent". The loop
  in fact overwrites every record's "id", whatever the file held.
- `search` reads fields with `track.get(..., "")`, but `stream_track` indexes
  `track["audio_path"]`. So a record without "audio_path" is found by search
  and lookup, and streaming it raises `KeyError`. The model keeps this as the
  error `KeyError("audio_path")`.

## Model

| member | source | states |
|---|---|---|
| `Text.Lower` | backend/app/main.py:45 | lower-casing keeps the length and maps each character on its own (ASCII letters A-Z to a-z, everything else unchanged) |
| `Text.LowerIdempotent` | backend/app/main.py:45 | lower-casing an already lower-cased string changes nothing |
| `Text.In` | backend/app/main.py:49-51 | the substring test `needle in hay` is true exactly when `needle` occurs at some position of `hay` |
| `Text.EmptyIsInEverything` | backend/app/main.py:49-51 | `"" in s` holds for every `s`, `""` included |
| `CatalogStore.Catalog.constructor` | backend/app/main.py:24 | the store starts as the empty list |
| `CatalogStore.Catalog.Load` | backend/app/main.py:29-39 | a missing data file or invalid JSON fails and leaves the store as it was; otherwise the store becomes the parsed list, numbered by position |
| `CatalogStore.Catalog.AssignIds` | backend/app/main.py:38-39 | the in-place loop leaves every record of the store with its "id" set to its position and nothing else changed |
| `CatalogStore.WithIds` | backend/app/main.py:38-39 | the numbered catalog: same length and order as the parsed list, the record at position i has id i whatever "id" the file held, and every other field of every record is as parsed |
| `CatalogStore.IdsAreExactlyPositions` | backend/app/main.py:38-39 | after numbering, the set of ids is exactly 0..n-1 and no two records share an id |
| `TrackSearch.Field` | backend/app/main.py:49-51 | `track.get(field, "")`: a present field reads as its value, a missing field as "" |
| `TrackSearch.Matches` | backend/app/main.py:49-51 | the comprehension's condition holds exactly when the lower-cased query occurs in the lower-cased title, artist or album, a missing field read as "" |
| `TrackSearch.FilterFrom` | backend/app/main.py:47-52 | the list comprehension: never longer than the part of the catalog it scans, and keeps only tracks that meet the condition; characterised exactly by FilterFromSelects |
| `TrackSearch.Search` | backend/app/main.py:44-54 | lower-cases the query once and keeps, in catalog order, the catalog tracks whose lower-cased title, artist or album contains it; every result is a catalog track that hits the query (soundness); characterised fully by SearchIsOrderedSelection and SearchComplete |
| `TrackSearch.FilterFromSelects` | backend/app/main.py:47-52 | the comprehension's output is the catalog read at strictly increasing positions, exactly the positions whose track meets the condition |
| `TrackSearch.SearchIsOrderedSelection` | backend/app/main.py:44-52 | search returns a subsequence of the catalog in catalog order, each position at most once, made of exactly the tracks that hit the query |
| `TrackSearch.SearchComplete` | backend/app/main.py:47-52 | every catalog track that hits the query is among the results |
| `TrackSearch.SearchIgnoresCase` | backend/app/main.py:45-51 | queries with the same lower-case form, e.g. a query and its lower-case form, return identical result lists |
| `TrackSearch.SearchEmptyQuery` | backend/app/main.py:45-52 | the empty query returns the whole catalog unchanged, including tracks that lack title, artist and album |
| `TrackLookup.GetTrack` | backend/app/main.py:59-63 | lookup succeeds exactly when 0 <= id < n and then returns the record at position id; otherwise 404 "Track not found" |
| `TrackLookup.StreamTrack` | backend/app/main.py:68-82 | an out-of-range id gives 404 "Track not found"; a record without "audio_path" gives KeyError; an absent file gives 404 "Audio file not found"; otherwise the record's own audio path is streamed as audio/mpeg |
| `TrackLookup.StreamSharesLookupGuard` | backend/app/main.py:60-73 | streaming answers "Track not found" exactly when lookup fails, whatever files exist, and streams the audio path of the record that lookup returns |
| `TrackLookup.LookupAfterLoad` | backend/app/main.py:38-63 | on a loaded catalog, lookup by id succeeds exactly for the ids numbering handed out, and returns the parsed record numbered with that id |
| `TrackLookup.SearchResultsResolveById` | backend/app/main.py:38-63 | on a loaded catalog, every search result has an id, and looking that id up returns the same record |
| `TrackLookup.OneTrackScenario` | backend/app/main.py:29-76 | for a one-track catalog: id 0 is assigned and found, "queen" and "QUEEN" both find the track, id 1 is not found, and streaming without the file is "Audio file not found" |

## Left out

- FastAPI application setup, the permissive CORS middleware and the route decorators: framework wiring with no behaviour of its own.
- Reading and parsing `music.json`: `Load` receives whether the file exists and the parsed list (`None` for invalid JSON). Documents that parse but are not a list of objects are not modelled. Neither are field values that are not strings, such as a `null` title on which `.lower()` raises, or a non-integer "id" in the file.
- Path handling: `Path(__file__)` resolution and the join `AUDIO_PATH / audio_path` are not modelled. That includes pathlib's treatment of absolute paths, `..` and the empty path. Whether the audio file exists is a parameter: the set of paths present under the audio root.
- `TrackLookup.StreamTrack`: stops at the choice of file and content type. The `iterfile` generator and `StreamingResponse`, which copy the file's bytes to the client, are I/O and not modelled. So are errors raised while opening the file after the existence check.
- `Text.Lower`: maps only ASCII A-Z. Python's `str.lower()` follows full Unicode case mapping, which is not modelled.
- The `{"results": ...}` JSON envelope around the search results, and the HTTP status and serialisation of responses. Errors are values (`ApiError`), not HTTP responses.
- Concurrent requests: the store is only read after startup, so they cannot change what a request sees.
