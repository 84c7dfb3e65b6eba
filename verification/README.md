# Rotating playlist manager — a verified model

The script keeps three playlists, "Rotation: Year -1", "Rotation: Year -2" and
"Rotation: Year -3". Each one holds the tracks the user liked in one of the
last three years, counted back from now in fixed 365-day steps. For each year
the script does four things:

- it pages through the liked tracks, newest first, and stops at the first
  track liked before the window;
- it looks for a playlist with the window's name among all the playlists the
  user can see;
- it falls back to finding or creating the user's own private playlist with
  that name;
- it reconciles that playlist's contents with the window's tracks. When the
  current and desired tracks are equal as sets, nothing is written.
  Otherwise the playlist is replaced by the first 100 ids and the rest are
  appended 100 at a time.

The music service is modelled as an in-memory class, `Remote.Service`. Its
fields are:

- the liked entries, each a track id and the instant it was liked in
  seconds;
- the listed playlists, each with an id, name, owner and visibility;
- a map from playlist id to the playlist's items. An item whose track is gone
  is `None`;
- the log of every write request the service received.

Reads are `limit`/`offset` page functions. Writes are methods that change the
fields and append to the log, so "nothing is written" is stated as "the log is
unchanged".

The modules are:

- `Remote`: the service;
- `Windows`: the yearly windows;
- `Liked`: the scan of the liked tracks;
- `Playlists`: listing playlists, reading a playlist's tracks, and
  find-or-create;
- `Reconcile`: the set comparison and the batched writes;
- `Rotation`: one window's processing and a whole run.

The window end is exclusive, as in the code, which compares
`start <= added_at < end`. Against the window `[T-3, T)`, a track liked
exactly at `T` is skipped as newer than the window, and only the one liked at
`T-1` is kept (`Liked.EarlyStopExample`). A reading of the window as the
closed interval `[T-3, T]` would keep both. The model follows the code.

## Model

| member | source | states |
|---|---|---|
| Remote.Page | rotating-playlist-manager.py:30 | a `limit`/`offset` read returns the `min(limit, n - offset)` elements starting at `offset`, and nothing past the end |
| Remote.Service.constructor | rotating-playlist-manager.py:104-105 | a client for a user with given liked tracks starts valid, with no playlists, no items and nothing written |
| Remote.Service.CreatePlaylist | rotating-playlist-manager.py:74-75 | creating a playlist lists exactly one new playlist with the given name, owner and visibility under a fresh id, gives it no items, logs one create request and changes nothing else |
| Remote.Service.ReplaceItems | rotating-playlist-manager.py:97 | a replace request sets the playlist's items to the given ids, logs the request and leaves every other playlist alone |
| Remote.Service.AddItems | rotating-playlist-manager.py:99 | an append request adds the given ids after the playlist's items, logs the request and leaves every other playlist alone |
| Windows.YearWindows | rotating-playlist-manager.py:108-112 | builds three windows: the first ends at `now`, each spans 365 days, and each ends where the previous one starts |
| Windows.BackToBackYears | rotating-playlist-manager.py:110-111 | back-to-back windows are exactly `[now - 365(i+1) days, now - 365 i days)` |
| Windows.WindowsDisjoint | rotating-playlist-manager.py:108-112 | no instant lies in two windows |
| Windows.WindowsCover | rotating-playlist-manager.py:108-112 | an instant lies in some window iff it lies in the last three years before `now` |
| Liked.FirstOlder | rotating-playlist-manager.py:37-38 | locates the first entry liked before `start`: every earlier entry is at or after `start` |
| Liked.FetchLikedTracksRange | rotating-playlist-manager.py:25-45 | the paged scan returns the scan of the whole collection, stopping at the first older entry. The last page it requests holds that entry, or is the empty page past the end |
| Liked.KeptIsFiltered | rotating-playlist-manager.py:34-41 | after the first `p` entries without stopping, the kept ids are, in order, those of the entries liked in `[start, end)`; newer ones are skipped and the scan goes on |
| Liked.KeptIsScan | rotating-playlist-manager.py:37-38 | what the scan has kept on reaching the first older entry, or the end of the collection, is its whole result |
| Liked.ScanIsFilteredPrefix | rotating-playlist-manager.py:29-41 | the result is, in collection order, the ids in `[start, end)` among the entries before the first entry older than `start` |
| Liked.InWindowMembers | rotating-playlist-manager.py:40-41 | an id is kept iff some entry with that id was liked in `[start, end)`; entries at or after `end` are never kept |
| Liked.SortedScanMissesNothing | rotating-playlist-manager.py:34-38 | on a newest-first collection the early return loses nothing: the result equals the filter over all entries |
| Liked.ScanIgnoresRest | rotating-playlist-manager.py:37-38 | entries after the first older one do not affect the result |
| Liked.EarlyStopExample | rotating-playlist-manager.py:37-41 | entries at T, T-1, T-5, T-10 against `[T-3, T)` give only the T-1 track, and the scan stops at the T-5 entry |
| Playlists.GetAllUserPlaylists | rotating-playlist-manager.py:48-60 | reading pages until an empty one returns the whole listing, in order |
| Playlists.FirstMatch | rotating-playlist-manager.py:67-69 | locates the first playlist that matches the name, and the owner when one is given; no earlier playlist matches |
| Playlists.FindOrCreatePlaylist | rotating-playlist-manager.py:63-75 | returns the first listed playlist with this name owned by the user, writing nothing. Only when none exists does it create one private playlist with that name and owner, leaving the existing playlists unchanged |
| Playlists.GetPlaylistTrackIds | rotating-playlist-manager.py:77-87 | reading the item pages returns the ids of the items whose track is present, in order |
| Playlists.PresentConcat | rotating-playlist-manager.py:80-86 | reading page after page gives the ids of the concatenated items |
| Playlists.PresentWrap | rotating-playlist-manager.py:85 | reading back written ids returns them unchanged, in order |
| Playlists.PresentMembers | rotating-playlist-manager.py:85 | an id is read back iff some item holds that track |
| Playlists.PresentDropsNulls | rotating-playlist-manager.py:85 | exactly the items without a track are dropped |
| Playlists.NoNameNoOwned | rotating-playlist-manager.py:131-132 | when no playlist has the name, none has it with the user as owner, so find-or-create creates |
| Playlists.OwnerScopedExample | rotating-playlist-manager.py:68 | with same-named playlists of users B and A listed in that order, A's lookup finds A's playlist |
| Reconcile.UpdatePlaylistIfNeeded | rotating-playlist-manager.py:89-99 | the playlist ends as the reconciled items and the log grows by exactly the reconciliation writes. When the sets are equal nothing is written. No other playlist is touched |
| Reconcile.WriteBatches | rotating-playlist-manager.py:97-99 | one replace and then the appends leave the playlist holding the desired ids and log exactly the batches |
| Reconcile.AppendsCarry | rotating-playlist-manager.py:98-99 | the appends from position `from` carry `ids[from..]` in order |
| Reconcile.BatchesCarry | rotating-playlist-manager.py:97-99 | the batches, concatenated, are exactly the desired ids in order |
| Reconcile.AppendsShape | rotating-playlist-manager.py:98-99 | counts the appends from `from` and shows each targets the playlist with 1 to 100 ids |
| Reconcile.BatchesShape | rotating-playlist-manager.py:97-99 | one replace of the first `min(100, n)` ids, then `ceil((n - 100)/100)` appends (none when `n <= 100`) of 1 to 100 ids each |
| Reconcile.AppendsRebuild | rotating-playlist-manager.py:98-99 | applying the appends to a playlist holding `ids[..from]` leaves it holding all of `ids` |
| Reconcile.BatchesRebuild | rotating-playlist-manager.py:97-99 | whatever the playlist held, the batches leave it holding exactly the desired ids, the empty list included |
| Reconcile.WritesReconcile | rotating-playlist-manager.py:92-99 | the writes sent are exactly what turns the current items into the reconciled ones |
| Reconcile.ReconciledContents | rotating-playlist-manager.py:92-99 | afterwards the playlist holds the desired set of tracks; after a write, it holds the desired ids in order |
| Reconcile.ReconcileIdempotent | rotating-playlist-manager.py:90-94 | a second reconciliation with the same desired ids writes nothing and changes nothing |
| Reconcile.Batches250 | rotating-playlist-manager.py:97-99 | 250 ids go out as a replace of ids 0-99, then appends of ids 100-199 and ids 200-249 |
| Rotation.DecimalValue | rotating-playlist-manager.py:116 | the numeral in a window name reads back as the window's number |
| Rotation.WindowNamesDistinct | rotating-playlist-manager.py:116 | different windows get differently named playlists |
| Rotation.FirstWindowName | rotating-playlist-manager.py:116 | window 1 is named "Rotation: Year -1" |
| Rotation.FilledNext | rotating-playlist-manager.py:115-134 | filling the next window's playlist keeps the earlier ones filled, because it carries a different name and so a different id |
| Rotation.ProgressNext | rotating-playlist-manager.py:115-134 | a window step touches only its own playlist and adds at most its own private playlist, so the run's progress is kept |
| Rotation.NameOnlyLookupDiffers | rotating-playlist-manager.py:126-132 | with playlists of users B and A of the same window name listed in that order, the run's name-only lookup picks B's playlist while A's owner-scoped lookup would pick A's own |
| Rotation.WindowPlaylist | rotating-playlist-manager.py:123-132 | the target is the first listed playlist with the window's name, whatever its owner, with nothing written. Only when no playlist has the name is a private one created for the user |
| Rotation.ProcessWindow | rotating-playlist-manager.py:116-134 | the target playlist, found or newly created, ends holding the set of tracks the scan finds in the window, with the exact items and writes stated for each case. No other playlist's items change |
| Rotation.RunStep | rotating-playlist-manager.py:115-134 | one pass of the loop keeps the run's progress: the windows already done stay filled, the new window's playlist is filled and titled, and only private playlists of the user were added |
| Rotation.Run | rotating-playlist-manager.py:105-134 | after a run, the three windows' playlists are distinct and carry the window names. Each holds its year's set of tracks. Every other playlist's items are unchanged, and at most three private playlists owned by the user were added |
| Rotation.EndToEndExample | rotating-playlist-manager.py:107-134 | tracks liked on 2024-03-01, 2023-01-01 and 2022-06-01 and a run on 2024-06-01 put one track in each window, in that order |

## Left out

- Client setup is not modelled: OAuth, environment variables, dotenv and the token cache (rotating-playlist-manager.py:5-23). They are I/O with no logic.
- The network, request failures, rate limits and the `fields=` projection of the item reads are not modelled. The service answers every read and accepts every write.
- The service does not check ownership or permissions. A write to a playlist the user follows but does not own is accepted, where the real service would refuse it.
- `datetime.strptime` and calendar or time-zone handling are not modelled. Instants are whole seconds, a year is 365 × 86400 seconds, and a malformed timestamp is not modelled.
- `datetime.now` is the `now` parameter of `Rotation.Run`. Its sub-second part is not modelled.
- All `print` output is left out.
- Remote.Service.CreatePlaylist: the id the real service assigns is external. The model only guarantees that it is fresh, and it lists the new playlist at the end of the listing.
- How the service computes a listing page's `next` link is not modelled. The model uses only "null once the page reaches the end of the listing".
- Rotation.Run: when the first listed playlist with a window's name belongs to another user, the program targets it, the service refuses its first write and the run stops with an error. The model accepts the write and reports that playlist filled (Rotation.NameOnlyLookupDiffers shows the two lookups part ways).
- Rotation.Run: states only that the write log grows. The exact requests of each window are stated by Rotation.ProcessWindow.
- Liked.FetchLikedTracksRange: the claim that no page after the stopping entry is requested is stated through the ghost offset of the last page read, not as a log of read requests.
