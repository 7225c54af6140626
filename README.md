# Album detail screen and album paging, modelled in Dafny

This project models two parts of the album feature of the SwingMusic Android client.

**The album-detail view model (`AlbumWithInfoViewModel`)** keeps one `AlbumWithInfoState` record. The record holds:

- the album hash;
- a reload flag;
- a flat, ordered track list;
- a `Resource` that is `Loading`, `Success` or `Error`. A `Success` carries the album header, a disc-keyed map of track lists and a copyright line.

The view model changes the record in these ways:

- **Album responses.** A successful album response rebuilds both views. The tracks are stably sorted by track number, grouped by disc, and the map keys are put in ascending disc order. The flat list is the map read in key order.
- **Favourite toggles.** Each toggle writes the new flag at once (the optimistic step), calls the repository, and settles on the server's answer. An error rolls the flag back. The album toggle writes the header flag. The track toggle writes every track with the given hash, first in the flat list and then in the map.
- **Event dispatcher.** It resets the state, stores the album hash, starts a load or refresh, or starts a toggle.

**The album paging source (`AlbumsPagingSource`)** pages over the server's album list with page numbers as keys. `load`:

- turns the key into a start index;
- builds the page with its previous and next keys from what the listing endpoint returned;
- classifies each failure into a fixed user-facing message.

`getRefreshKey` picks the key to reload after an invalidation.

The project has five modules:

- **`ResourceState`** holds the Kotlin nullable (`Option`) and the tri-state `Resource`.
- **`AlbumAggregate`** holds the track record, the stable sort, the grouping into a sorted disc map and its flat reading. Its lemmas show that the result is a stable sort by (disc, track number).
- **`AlbumWithInfoModel`** holds the state record, the events, and one pure transition per response or event. Its lemmas cover the views-agree invariant, optimistic writes, rollback and settling.
- **`AlbumWithInfoViewModel`** has a class with a mutable `state` field. Its methods make the same writes in the same order as the Kotlin handlers. Each method's postcondition ties the new state to the pure transition.
- **`AlbumsPaging`** holds `load` with 32-bit `Int` arithmetic, the failure messages, and a crawl over a finite backing list. The crawl proves termination and page-by-page coverage. This module also holds the refresh key.

Repository and API calls become inputs:

- an album request is the sequence of `Resource` values its flow emits;
- a favourite request is the sequence of `Resource<Boolean>` values its flow emits;
- the listing endpoint is a function from start index to outcome (`Items`, `NullItems`, `IOFailure`, `Http(code)`, `OtherFailure`);
- the DTO-to-album mapper is a total function parameter.

## Model

| member | source | states |
|---|---|---|
| AlbumAggregate.SortByTrackNumberIsStableSort | feature/album/src/main/java/com/android/swingmusic/album/presentation/viewmodel/AlbumWithInfoViewModel.kt:32-33 | `sortedBy { trackNumber }` yields a list sorted by track number that is a permutation of the input, and for every track number the tracks with that number keep their input order (stability) |
| AlbumAggregate.GroupByDiscIsSortedGrouping | feature/album/src/main/java/com/android/swingmusic/album/presentation/viewmodel/AlbumWithInfoViewModel.kt:34-35 | `groupBy { disc }.toSortedMap()` yields strictly ascending disc keys. The keys are exactly the discs present. Each disc's list is the input's subsequence of that disc in input order, and together the lists are a permutation of the input |
| AlbumAggregate.FlattenSelectsGroup | feature/album/src/main/java/com/android/swingmusic/album/presentation/viewmodel/AlbumWithInfoViewModel.kt:37 | reading a valid disc map in key order and keeping one disc's tracks gives exactly that disc's list |
| AlbumAggregate.AggregateIsStableSortByDiscThenNumber | feature/album/src/main/java/com/android/swingmusic/album/presentation/viewmodel/AlbumWithInfoViewModel.kt:32-37 | The whole aggregate has a valid, ascending disc map whose keys are the input's discs and whose lists are each sorted by track number. Its flat reading is a permutation of the input, sorted by (disc, track number), and keeps the input order among tracks sharing both |
| AlbumWithInfoModel.SuccessRebuildsViews | feature/album/src/main/java/com/android/swingmusic/album/presentation/viewmodel/AlbumWithInfoViewModel.kt:31-50 | A success with data keeps the hash, clears `reloadRequired` and stores the header. The copyright is the response's, or `""` when absent. The two views agree, and the flat list is the stable (disc, number) sort of the response's tracks |
| AlbumWithInfoModel.SuccessWithoutDataEmptiesViews | feature/album/src/main/java/com/android/swingmusic/album/presentation/viewmodel/AlbumWithInfoViewModel.kt:31-50 | a success without data empties the flat list and the map, has no header, copyright `""`, and clears `reloadRequired` |
| AlbumWithInfoModel.LoadingOrErrorReplacesOnlyResource | feature/album/src/main/java/com/android/swingmusic/album/presentation/viewmodel/AlbumWithInfoViewModel.kt:52-64 | `Loading` sets the resource to `Loading` and an error sets it to `Error` with the response's message; hash, reload flag and flat list are unchanged |
| AlbumWithInfoModel.AlbumResponsesKeepHash | feature/album/src/main/java/com/android/swingmusic/album/presentation/viewmodel/AlbumWithInfoViewModel.kt:29-66 | no album response changes the stored album hash |
| AlbumWithInfoModel.LastSuccessDecides | feature/album/src/main/java/com/android/swingmusic/album/presentation/viewmodel/AlbumWithInfoViewModel.kt:255-257 | when the album flow's last emission is a success, the state after the whole flow is that success applied to the state before it |
| AlbumWithInfoModel.AlbumResponsesKeepViewsAgree | feature/album/src/main/java/com/android/swingmusic/album/presentation/viewmodel/AlbumWithInfoViewModel.kt:29-66 | every sequence of album responses keeps the flat list equal to the map read in key order whenever the resource holds data |
| AlbumWithInfoModel.SettledFavoriteIsLastTerminal | feature/album/src/main/java/com/android/swingmusic/album/presentation/viewmodel/AlbumWithInfoViewModel.kt:90-124 | The flag a toggle settles on is decided by the last success or error only. A success gives the server value, or false when null. An error gives the original flag. With no terminal response the optimistic `!isFavorite` stays |
| AlbumWithInfoModel.AlbumFavoriteCall | feature/album/src/main/java/com/android/swingmusic/album/presentation/viewmodel/AlbumWithInfoViewModel.kt:84-88 | the album request is "remove" exactly when the album was a favourite and "add" exactly when it was not, for the given hash |
| AlbumWithInfoModel.AlbumToggleOptimisticStep | feature/album/src/main/java/com/android/swingmusic/album/presentation/viewmodel/AlbumWithInfoViewModel.kt:71-82 | The optimistic album write gives a present header the flag `!isFavorite` and keeps the header's other fields. It keeps the map, copyright, flat list, hash and reload flag. A resource without data becomes a success with no header, an empty map and no copyright |
| AlbumWithInfoModel.AlbumToggleSuccessTakesServerValue | feature/album/src/main/java/com/android/swingmusic/album/presentation/viewmodel/AlbumWithInfoViewModel.kt:94-107 | on a loaded state, a success gives a present header the server's flag (false when null) with its other fields kept, and keeps the map, copyright, flat list, hash and reload flag |
| AlbumWithInfoModel.AlbumFavoriteOverwrite | feature/album/src/main/java/com/android/swingmusic/album/presentation/viewmodel/AlbumWithInfoViewModel.kt:95-121 | a later write of the album flag overrides an earlier one |
| AlbumWithInfoModel.AlbumFavoriteRestores | feature/album/src/main/java/com/android/swingmusic/album/presentation/viewmodel/AlbumWithInfoViewModel.kt:109-122 | writing the flag the header already has leaves a loaded state unchanged |
| AlbumWithInfoModel.AlbumToggleSettles | feature/album/src/main/java/com/android/swingmusic/album/presentation/viewmodel/AlbumWithInfoViewModel.kt:68-126 | the optimistic write followed by any sequence of responses equals one write of the settled flag |
| AlbumWithInfoModel.AlbumToggleErrorRollsBack | feature/album/src/main/java/com/android/swingmusic/album/presentation/viewmodel/AlbumWithInfoViewModel.kt:109-122 | on a loaded state, an album toggle answered by an error returns the state to exactly what it was |
| AlbumWithInfoModel.TrackFavoriteCall | feature/album/src/main/java/com/android/swingmusic/album/presentation/viewmodel/AlbumWithInfoViewModel.kt:160-164 | the track request is "remove" exactly when the track was a favourite and "add" exactly when it was not, for the given hash |
| AlbumWithInfoModel.FlattenSetFavorite | feature/album/src/main/java/com/android/swingmusic/album/presentation/viewmodel/AlbumWithInfoViewModel.kt:141-157 | rewriting the flag inside each disc's list and reading the map equals rewriting the map's flat reading |
| AlbumWithInfoModel.SetFavoriteIdentity | feature/album/src/main/java/com/android/swingmusic/album/presentation/viewmodel/AlbumWithInfoViewModel.kt:132-138 | rewriting tracks that already carry the flag leaves the list unchanged |
| AlbumWithInfoModel.TrackToggleOptimisticStep | feature/album/src/main/java/com/android/swingmusic/album/presentation/viewmodel/AlbumWithInfoViewModel.kt:131-157 | The optimistic track writes give every track with the hash the flag `!isFavorite` and change nothing else about it, in the flat list and in every disc's list. Other tracks, list lengths, disc keys, header, copyright, hash and reload flag are unchanged |
| AlbumWithInfoModel.TrackToggleUnknownHashIsIdentity | feature/album/src/main/java/com/android/swingmusic/album/presentation/viewmodel/AlbumWithInfoViewModel.kt:131-157 | on a loaded state, a hash that matches no track leaves the state identical |
| AlbumWithInfoModel.TrackFavoriteRestores | feature/album/src/main/java/com/android/swingmusic/album/presentation/viewmodel/AlbumWithInfoViewModel.kt:200-229 | on a loaded state, writing the flag every matching track already has changes nothing |
| AlbumWithInfoModel.TrackFavoriteOverwrite | feature/album/src/main/java/com/android/swingmusic/album/presentation/viewmodel/AlbumWithInfoViewModel.kt:170-229 | a later pair of track writes overrides an earlier pair |
| AlbumWithInfoModel.TrackToggleSettles | feature/album/src/main/java/com/android/swingmusic/album/presentation/viewmodel/AlbumWithInfoViewModel.kt:128-233 | the optimistic writes followed by any sequence of responses equal one pair of writes of the settled flag; a `Loading` changes nothing |
| AlbumWithInfoModel.TrackToggleErrorRollsBack | feature/album/src/main/java/com/android/swingmusic/album/presentation/viewmodel/AlbumWithInfoViewModel.kt:200-229 | on a loaded state whose matching tracks all carry `isFavorite`, a toggle answered by an error returns the state to exactly what it was |
| AlbumWithInfoModel.TrackToggleSuccessTakesServerValue | feature/album/src/main/java/com/android/swingmusic/album/presentation/viewmodel/AlbumWithInfoViewModel.kt:170-198 | after a success every matching track, in the flat list and in every disc's list, carries the server value (false when null), and the flat list keeps its length |
| AlbumWithInfoModel.TrackToggleKeepsViewsAgree | feature/album/src/main/java/com/android/swingmusic/album/presentation/viewmodel/AlbumWithInfoViewModel.kt:131-157 | on a loaded state whose views agree, the two track writes keep them in agreement |
| AlbumWithInfoModel.TrackToggleWithoutDataEmptiesMap | feature/album/src/main/java/com/android/swingmusic/album/presentation/viewmodel/AlbumWithInfoViewModel.kt:141-157 | on a state whose resource holds no data, the track writes leave a success with an empty map and no header. The views then agree exactly when the flat list is empty |
| AlbumWithInfoModel.ResetAndHashUpdate | feature/album/src/main/java/com/android/swingmusic/album/presentation/viewmodel/AlbumWithInfoViewModel.kt:237-247 | Reset yields the default state. Updating the hash sets it and `reloadRequired`, and keeps the flat list and the resource. Neither event makes a request |
| AlbumWithInfoModel.LoadAndRefreshTargetTheAlbum | feature/album/src/main/java/com/android/swingmusic/album/presentation/viewmodel/AlbumWithInfoViewModel.kt:249-269 | A load requests the event's album and leaves that hash stored. A refresh requests the stored hash, or `""` when none, and keeps it |
| AlbumWithInfoModel.EventsKeepViewsAgree | feature/album/src/main/java/com/android/swingmusic/album/presentation/viewmodel/AlbumWithInfoViewModel.kt:235-281 | every event, with any responses, keeps the two views in agreement, except a toggle on a state without data and with a non-empty flat list |
| AlbumWithInfoModel.ToggleDuringRefreshSplitsViews | feature/album/src/main/java/com/android/swingmusic/album/presentation/viewmodel/AlbumWithInfoViewModel.kt:52-55 | After loading a one-track album, a refresh that emits `Loading` keeps the flat list. A track toggle then stores an empty disc map beside it, so the views disagree whatever the favourite request answers |
| AlbumWithInfoModel.CorrectedEventsKeepViewsAgree | feature/album/src/main/java/com/android/swingmusic/album/presentation/viewmodel/AlbumWithInfoViewModel.kt:235-281 | The corrected dispatcher equals the one as written on every loaded state. Its toggles leave a resource without data unchanged, and every event keeps the two views in agreement, with no exception |
| AlbumWithInfoViewModel.AlbumWithInfoViewModel.constructor | feature/album/src/main/java/com/android/swingmusic/album/presentation/viewmodel/AlbumWithInfoViewModel.kt:25-26 | the state starts as the default record |
| AlbumWithInfoViewModel.AlbumWithInfoViewModel.UpdateAlbumInfoState | feature/album/src/main/java/com/android/swingmusic/album/presentation/viewmodel/AlbumWithInfoViewModel.kt:29-66 | the field write equals the album-response transition, whose meaning `SuccessRebuildsViews` and `LoadingOrErrorReplacesOnlyResource` state |
| AlbumWithInfoViewModel.AlbumWithInfoViewModel.CollectAlbumResponses | feature/album/src/main/java/com/android/swingmusic/album/presentation/viewmodel/AlbumWithInfoViewModel.kt:253-257 | collecting an album flow applies its emissions in order |
| AlbumWithInfoViewModel.AlbumWithInfoViewModel.ToggleAlbumFavorite | feature/album/src/main/java/com/android/swingmusic/album/presentation/viewmodel/AlbumWithInfoViewModel.kt:68-126 | the request is remove/add by the old flag, and the optimistic write plus the response loop leave the state of the album toggle transition |
| AlbumWithInfoViewModel.AlbumWithInfoViewModel.ToggleAlbumTrackFavorite | feature/album/src/main/java/com/android/swingmusic/album/presentation/viewmodel/AlbumWithInfoViewModel.kt:128-233 | the request is remove/add by the old flag, and the two optimistic writes plus the response loop leave the state of the track toggle transition |
| AlbumWithInfoViewModel.AlbumWithInfoViewModel.OnAlbumWithInfoUiEvent | feature/album/src/main/java/com/android/swingmusic/album/presentation/viewmodel/AlbumWithInfoViewModel.kt:235-281 | each event makes the request of its branch, none for the others, and leaves the state of the event transition |
| AlbumsPaging.Wrap32 | feature/album/src/main/java/com/android/swingmusic/album/data/paging/AlbumsPagingSource.kt:25 | `Int` arithmetic: the exact value when it fits in 32 bits, and always congruent to it modulo 2^32 |
| AlbumsPaging.StartIndex | feature/album/src/main/java/com/android/swingmusic/album/data/paging/AlbumsPagingSource.kt:24-25 | a missing key loads from index 0; otherwise the start index is page number times load size whenever that product fits in an `Int` |
| AlbumsPaging.HttpErrorMessage | feature/album/src/main/java/com/android/swingmusic/album/data/paging/AlbumsPagingSource.kt:41-49 | Codes 404, 401, 403 and 500 each get their own message, and only they do. Every other code gets the generic failure message. No HTTP message is the network or the unexpected-error message |
| AlbumsPaging.MapAlbums | feature/album/src/main/java/com/android/swingmusic/album/data/paging/AlbumsPagingSource.kt:35 | the page data has the API list's length and order, each item mapped |
| AlbumsPaging.Load | feature/album/src/main/java/com/android/swingmusic/album/data/paging/AlbumsPagingSource.kt:22-53 | `load` returns a page exactly when the endpoint returned normally, and otherwise an error carrying one of the seven failure messages. The keys and data are stated by `LoadReturnsPageOnNormalReturn`, and the message for each failure by `LoadClassifiesFailures` |
| AlbumsPaging.LoadReturnsPageOnNormalReturn | feature/album/src/main/java/com/android/swingmusic/album/data/paging/AlbumsPagingSource.kt:34-38 | `load` returns a page exactly when the endpoint returned normally. The previous key is absent exactly on page 0 and is `page - 1` in `Int` arithmetic otherwise. The next key is absent exactly when the list is present and empty, and is `page + 1` in `Int` arithmetic otherwise. A null list gives empty data; a present list is mapped item by item |
| AlbumsPaging.LoadClassifiesFailures | feature/album/src/main/java/com/android/swingmusic/album/data/paging/AlbumsPagingSource.kt:39-51 | an I/O failure, each HTTP code and any other exception yield an error with their fixed message |
| AlbumsPaging.FailureMessagesDistinct | feature/album/src/main/java/com/android/swingmusic/album/data/paging/AlbumsPagingSource.kt:40-51 | the seven failure messages are pairwise distinct |
| AlbumsPaging.LoadStep | feature/album/src/main/java/com/android/swingmusic/album/data/paging/AlbumsPagingSource.kt:22-38 | over a backing list, loading page `key` returns the mapped slice starting at `key * loadSize`, with next key `key + 1` unless the slice is empty |
| AlbumsPaging.CrawlEnds | feature/album/src/main/java/com/android/swingmusic/album/data/paging/AlbumsPagingSource.kt:37 | following next keys over a finite list stops, and stops on the first empty page |
| AlbumsPaging.CrawlKeys | feature/album/src/main/java/com/android/swingmusic/album/data/paging/AlbumsPagingSource.kt:36-37 | the pages followed have consecutive keys: each previous key is one less and each next key one more than its own |
| AlbumsPaging.CrawlData | feature/album/src/main/java/com/android/swingmusic/album/data/paging/AlbumsPagingSource.kt:35 | the pages followed from a start index hold the rest of the mapped list, in order |
| AlbumsPaging.PagesToCoverIsCeiling | feature/album/src/main/java/com/android/swingmusic/album/data/paging/AlbumsPagingSource.kt:25 | the number of non-empty pages is the remaining length over the load size, rounded up, and zero when nothing remains |
| AlbumsPaging.CrawlCount | feature/album/src/main/java/com/android/swingmusic/album/data/paging/AlbumsPagingSource.kt:37 | the pages followed are the non-empty ones plus one final empty page |
| AlbumsPaging.CrawlPagesAreLoads | feature/album/src/main/java/com/android/swingmusic/album/data/paging/AlbumsPagingSource.kt:22-38 | each page followed is what `load` returns for its key |
| AlbumsPaging.LoadAllWalksPages | feature/album/src/main/java/com/android/swingmusic/album/data/paging/AlbumsPagingSource.kt:24-37 | Loading from no key walks pages 0, 1, 2, … in order, each being `load` of its key. Every page but the last is non-empty and names the next. The last is empty and names none |
| AlbumsPaging.LoadAllReadsWholeList | feature/album/src/main/java/com/android/swingmusic/album/data/paging/AlbumsPagingSource.kt:24-37 | the pages loaded from the first page hold the whole mapped list in order, in length-over-load-size (rounded up) non-empty pages plus one empty page |
| AlbumsPaging.GetRefreshKey | feature/album/src/main/java/com/android/swingmusic/album/data/paging/AlbumsPagingSource.kt:20 | as written, the refresh key is the state's anchor position, unchanged |
| AlbumsPaging.ClosestPageFrom | feature/album/src/main/java/com/android/swingmusic/album/data/paging/AlbumsPagingSource.kt:20 | among the loaded pages, the page found for an item position is the one whose load range holds the item |
| AlbumsPaging.IntendedRefreshKeyFindsAnchorPage | feature/album/src/main/java/com/android/swingmusic/album/data/paging/AlbumsPagingSource.kt:20 | the corrected refresh key is the page number whose load range holds the anchored item |
| AlbumsPaging.ReloadHoldsAnchor | feature/album/src/main/java/com/android/swingmusic/album/data/paging/AlbumsPagingSource.kt:22-38 | reloading a page whose range holds an item brings that item back at its offset in the page |
| AlbumsPaging.IntendedRefreshKeyReloadsAnchor | feature/album/src/main/java/com/android/swingmusic/album/data/paging/AlbumsPagingSource.kt:20 | with the corrected refresh key, the reload contains the anchored item at its offset |
| AlbumsPaging.RefreshKeyAsWrittenMissesAnchor | feature/album/src/main/java/com/android/swingmusic/album/data/paging/AlbumsPagingSource.kt:20 | As written, the refresh key is the anchor's item index. For 60 albums, 20 per page and the anchor on album 45, the refresh loads page 45, which is empty. The corrected key is page 2 |

## Left out

- **Coroutines and flows.** `viewModelScope.launch`, `collectLatest` cancellation, `StateFlow` observation, and races between overlapping loads or toggles are left out. Each request's flow is a finite sequence of responses, and the responses are applied in order with nothing in between.
- **The two track writes.** They are made in sequence, as in the source. The model does not claim that an observer never sees the state between them.
- **Repository and endpoint calls.** `albumRepository`, `pLayerRepository`, `api.getAllAlbums` and the HTTP transport are inputs: a sequence of responses, or a function from start index to outcome. The base URL, bearer token, sort key and sort order are passed to the endpoint and are not modelled.
- **`toAlbum` and `CustomPagingException`.** `toAlbum` is a total function parameter, and `CustomPagingException` is reduced to its message; the wrapped cause is not kept.
- **The `Resource` class is not part of this model.** Its shape is taken as `Loading`, `Success` with optional data, and `Error` with a message. Only a success carries data, and an error's message is present, as the `!!` at line 61 requires.
- **The defaults of `AlbumWithInfoState`.** They are taken as: no hash, no reload required, no tracks, `Loading`.
- **The domain `Track`, `AlbumInfo` and `AlbumWithInfo` classes are not part of this model.** The track record takes the fields of `TrackDto` that matter here, with `disc` and `trackNumber` as non-null integers. The header keeps only hash, title and favourite flag.
- **Crawl page size.** The endpoint takes a start index but no page size, so the crawl lemmas over a backing list assume the server returns `loadSize` items per call.
- **Initial load size.** The pager's larger initial load size is not modelled; every load uses the same `loadSize`.
- **`PagingState`.** It is reduced to the loaded pages and the anchor position. The page's item offsets (`itemsBefore`, placeholders) are left out.
- AlbumsPaging.StartIndex: states the product only when it fits in an `Int`; beyond that the result is the 32-bit wrap, stated by `Wrap32`.

## Findings

| source | as written | input that shows it | evidently intended | confidence | as-written member | corrected member |
|---|---|---|---|---|---|---|
| feature/album/src/main/java/com/android/swingmusic/album/data/paging/AlbumsPagingSource.kt:20 | `getRefreshKey` returns `anchorPosition`, an item index, although the source's keys are page numbers | 60 albums, 20 per page, anchor on album 45: the refresh key is 45, the reload starts at index 900 and returns an empty page | the number of the page holding the anchored item (here 2): the anchor page's previous key plus one, or its next key minus one | medium; not executed | AlbumsPaging.RefreshKeyAsWrittenMissesAnchor | AlbumsPaging.IntendedRefreshKeyReloadsAnchor |
| feature/album/src/main/java/com/android/swingmusic/album/presentation/viewmodel/AlbumWithInfoViewModel.kt:141-157 | A track toggle made while the resource holds no data stores `Success` with a null header and an empty disc map. The flat list kept by lines 52-55 stays beside it | Load an album of one track, refresh with a flow that first emits `Loading`, then toggle that track: the flat list holds the track and the disc map is empty | the two views never disagree: the toggle leaves a resource without data as it is and rewrites only the flat list | medium; not executed | AlbumWithInfoModel.ToggleDuringRefreshSplitsViews | AlbumWithInfoModel.CorrectedEventsKeepViewsAgree |
