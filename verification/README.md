# Wallpaper manager decision logic in Dafny

This project models the decision logic of a desktop wallpaper manager and proves properties of that model. The manager has two halves:

- **C++/Qt half.** It downloads images from subreddits into `~/.cache/wallpaper`. It keeps an `index.json` of per-image metadata: subreddit, favourite, banned, thumbnail. It picks random or favourite wallpapers from the cache and hands them to a desktop backend.
- **Python half.** It does the same downloading and backend selection from the command line.

Everything the program does to the outside world becomes a parameter of the model. This covers:

- the network: a fetch result, or a parsed JSON reply;
- SHA-256: a function from bytes to a hex string;
- the file system: the set of existing paths, or the list of a directory's files;
- the random generator: a `roll`, reduced modulo the number of candidates;
- process runs: a result per command;
- the image filters: an `accepts` predicate;
- ISO-8601 date formatting and parsing: two functions.

The modules are:

- `Wrappers`, `Strings`, `Json`, `Seqs`: option and result types, and ASCII string operations (trimming, case folding, `section`/`split`). They also hold a JSON tree whose objects are ordered member lists, and order-preserving filtering.
- `CacheIndex`: the `index.json` handlers of the main window. These are the cleanup task, favourite toggling, permaban, and the `imageCached` handler that maintains `url_map.json` and fills in missing subreddits.
- `AutoRotate`: the auto-rotate interval. It covers the unit combo index, the millisecond computation with clamping to `INT_MAX`, the timer, and the config round trip.
- `CacheManager`: `downloadAndCache` (current and legacy variants), `cacheDirPath` and `randomImagePath`.
- `Selection`: the candidate filters of "new random" and "random favourite".
- `PyDownload`: the Python `load_index` and `download_image`. This covers URL reuse, content deduplication by hash, and collision-free naming.
- `Listing`: the three listing readers:
  - the Python `extract_image_urls_from_listing`;
  - `pickImageUrlFromListing` in the legacy C++ program;
  - the parse half of `RedditFetcher::fetchRecentImageUrls`.
- `Desktop`: desktop detection and backend fallback, in both Python and C++.
- `Sources`: the subreddit sources panel. It covers add and remove, load and save, and last-updated times.
- `UpdateWorker`: the signal trace of the background update job.

## Model

| member | source | states |
|---|---|---|
| AutoRotate.UnitIndex | src/appwindow.cpp:284-290 | The saved unit text selects its own combo index for "seconds", "minutes" and "hours". Any other text selects "on restart". |
| AutoRotate.UnitIndexRoundTrip | src/appwindow.cpp:279-290 | Saving a unit's combo text and reading it back selects the same combo index. |
| AutoRotate.Msec64 | src/appwindow.cpp:309-312 | The 64-bit product of an `int` interval and the unit's factor cannot overflow. It is at least the interval when the interval is positive. |
| AutoRotate.IntervalMs | src/appwindow.cpp:306-314 | There is no timer for "on restart" or a non-positive value. Otherwise the interval is the product in milliseconds, clamped to `INT_MAX`, and always in 1..`INT_MAX`. |
| AutoRotate.HoursClamp | src/appwindow.cpp:312-313 | 596 hours still fits in an `int` of milliseconds; 597 hours is clamped to `INT_MAX`. |
| AutoRotate.ApplyTimer | src/appwindow.cpp:303-319 | Without an interval the timer is stopped and keeps its old interval. With one, the timer runs with that interval. |
| AutoRotate.ApplyTimerIdempotent | src/appwindow.cpp:315-318 | Applying the same settings a second time leaves the timer as the first application left it. |
| AutoRotate.Persist | src/appwindow.cpp:321-329 | The rewritten config holds the new `auto_interval` and `auto_unit`. Every other key reads as before. |
| AutoRotate.ClampSpin | src/appwindow.cpp:272 | The spin box value always lies in 0..1000000 and is unchanged when it already does. |
| AutoRotate.LoadSettings | src/appwindow.cpp:274-290 | The loaded interval and unit are always in range. A missing key defaults to 15 and to "minutes". |
| AutoRotate.PersistLoadRoundTrip | src/appwindow.cpp:274-290 | Loading a config written by the persist step restores the interval and unit index that were saved. |
| CacheIndex.FileName | src/appwindow.cpp:692 | The index key of a path contains no `/` and is a suffix of the path. When it is shorter than the path, a `/` comes right before it, so it is the last path component. |
| CacheIndex.ReadIndex | src/appwindow.cpp:668-677 | An object document reads as a map with exactly its keys and their values. Anything else reads as the empty index. |
| CacheIndex.SetEntryField | src/appwindow.cpp:815-818 | After `entry[field] = v; root[key] = entry`, the field reads `v`. The entry's other fields and every other key are unchanged. |
| CacheIndex.Thumbnails | src/appwindow.cpp:72 | Every index key has exactly one thumbnail name, read from its entry's `thumbnail` field. |
| CacheIndex.CollectDoomed | src/appwindow.cpp:60-67 | The keys marked for removal are exactly those whose `subreddit` is non-empty and not in the allowed set. |
| CacheIndex.RemoveEntries | src/appwindow.cpp:68-75 | The index loses exactly the doomed keys. The files deleted are those keys and their non-empty thumbnails. |
| CacheIndex.Cleanup | src/appwindow.cpp:56-76 | A key survives if and only if its subreddit is empty or allowed, and surviving entries are unchanged. The deleted files are the doomed images and their thumbnails. |
| CacheIndex.CleanedOnlyAllowed | src/appwindow.cpp:60-75 | Every entry left after cleanup has an empty or allowed subreddit. |
| CacheIndex.CleanupIdempotent | src/appwindow.cpp:56-76 | Cleaning an already cleaned index with the same allowed set changes nothing. |
| CacheIndex.CleanupMonotone | src/appwindow.cpp:64 | Allowing more subreddits never removes more entries. |
| CacheIndex.ToggleFavoriteAt | src/appwindow.cpp:694-699 | The entry's favourite flag is negated, a missing flag reading as false. The entry's other fields and all other keys are unchanged. |
| CacheIndex.ToggleFavorite | src/appwindow.cpp:688-699 | The selected path's entry is toggled, or the current wallpaper's when nothing is selected. With neither, the index is left alone. Only the target entry's `favorite` field changes, and every other key is unchanged. |
| CacheIndex.ThumbnailFavorite | src/appwindow.cpp:709-719 | An empty path changes nothing. Otherwise only that image's favourite flag flips. |
| CacheIndex.ToggleTwiceRestores | src/appwindow.cpp:694-699 | Toggling the same entry twice restores every entry's favourite state. |
| CacheIndex.BanAt | src/appwindow.cpp:734-736 | The entry is banned afterwards. Its other fields and all other keys are unchanged. |
| CacheIndex.BanIdempotent | src/appwindow.cpp:734-736 | Banning twice is the same as banning once. |
| CacheIndex.ContextPermaban | src/appwindow.cpp:728-747 | An empty path or a failed write changes nothing. Otherwise the image is banned, only its `banned` field changes, and every other key is unchanged. A favourite pick is scheduled exactly when the banned image is the current wallpaper. |
| CacheIndex.TrayPermaban | src/appwindow.cpp:749-765 | With a current wallpaper and a successful write, that wallpaper is banned and a favourite pick is scheduled. Otherwise nothing changes. |
| CacheIndex.StripQueryAndFragment | src/appwindow.cpp:796-799 | The normalised URL is the longest prefix free of `?` and `#`. |
| CacheIndex.SubList | src/appwindow.cpp:802 | The subreddit list read from a `url_map` array has one string per element, in order. |
| CacheIndex.RecordSource | src/appwindow.cpp:796-804 | The normalised URL's list afterwards contains the subreddit. It extends the old list by at most that one name, and is unchanged when the name was already there. It keeps names distinct. Other URLs are untouched. |
| CacheIndex.RecordSourceIdempotent | src/appwindow.cpp:800-804 | Recording the same URL and subreddit twice is the same as once. |
| CacheIndex.FillSubreddit | src/appwindow.cpp:812-820 | An entry with a subreddit is left alone. Otherwise only its `subreddit` field is set. |
| CacheIndex.OnImageCached | src/appwindow.cpp:866-893 | After an `imageCached` signal, the URL's list holds the subreddit. It extends the old list by at most that name and is unchanged when the name was there. Other URLs are untouched. An entry that had a subreddit is left alone. Otherwise its `subreddit` becomes exactly the signal's subreddit, and no other field or key changes. |
| CacheManager.CacheDirPath | src/cachemanager.cpp:76-82 | The cache directory is exactly the home directory followed by `/.cache/wallpaper`, as its length equation pins down. |
| CacheManager.JoinPath | src/cachemanager.cpp:32 | A joined path is exactly the directory, a slash and the name: it starts with the first two, ends with the name, and has their total length. For a slash-free name, the last path segment is that name. |
| CacheManager.UrlName | src/cachemanager.cpp:30-31 | The file name is the text after the last `/` of the URL (query kept), or `wallpaper.jpg` when that is empty. |
| CacheManager.HashName | src/cachemanager.cpp:56-59 | The stored name is exactly the hex digest, a dot, and the text after the last dot of the URL name. The length equation rules out anything in between. |
| CacheManager.StoreInto | src/cachemanager.cpp:30-73 | An existing direct path is returned without a download, and the image is downloaded exactly when it is missing. A network error returns empty and writes nothing. An existing hash name is returned without a write. Otherwise the bytes are written to the hash name, which is returned, or empty is returned exactly when the write fails. |
| CacheManager.StoreBody | src/cachemanager.cpp:55-73 | After a download: an existing hash name is returned without a write. Otherwise a write to the hash name happens exactly when it succeeds, with the downloaded bytes, and a failed write returns empty. |
| CacheManager.SameContentSamePath | src/cachemanager.cpp:56-64 | Two URLs whose names are not cached yet, with the same bytes and the same extension, map to one stored path. The second download writes nothing. |
| CacheManager.DownloadAndCache | src/cachemanager.cpp:14-23 | Results lie in `~/.cache/wallpaper`, or in `~/.cache` when that directory cannot be made. |
| CacheManager.LegacyDownloadAndCache | cpp/src/cachemanager.cpp:12-54 | Results lie in the legacy directory. That is the XDG cache location, or `~/.cache` when that is empty, followed by `/wallpaper`. When the subdirectory cannot be made, results stay in the cache location itself. |
| CacheManager.LegacyDir | cpp/src/cachemanager.cpp:14-18 | The legacy directory is the cache base followed by `/wallpaper`, where the base is the XDG location or `~/.cache` when that is empty. When the subdirectory cannot be made, it is the base itself. An empty or `~/.cache` XDG location gives `~/.cache/wallpaper`. |
| CacheManager.VariantsAgree | cpp/src/cachemanager.cpp:12-53 | Whenever the legacy variant's directory is the current variant's `~/.cache/wallpaper`, both variants give the same outcome for every URL, file set, network result and write result. |
| CacheManager.RandomImagePath | src/cachemanager.cpp:84-94 | The result is empty exactly when the directory is missing or no file matches a glob. Otherwise it is the cache path of a matching file. |
| Selection.FavoritesRefineRandom | src/appwindow.cpp:522-538 | The favourite candidates are exactly the random candidates that are favourited, in the same order. |
| Selection.NewRandom | src/appwindow.cpp:489-565 | A path is tried exactly when the directory exists and some listed file has an image extension, is not banned and passes the filters. The tried path is such a file. The current and selected paths change only if setting succeeded. |
| Selection.RandomFavorite | src/appwindow.cpp:567-616 | With an eligible favourite, one such favourite is tried. With none, the action falls back to "new random", which filters with the aspect target refreshed to the primary screen, not the filter the favourites were checked against. A missing directory does nothing. |
| Selection.NeverBanned | src/appwindow.cpp:529-531 | Neither action ever hands a banned image to the backend. |
| Selection.FavoritePickIsFavorite | src/appwindow.cpp:588-594 | When a favourite is eligible, the random-favourite action tries a favourited image. |
| Selection.GlobImpliesExtension | src/appwindow.cpp:503-507 | Every name the cache globs accept also matches the extension pattern of the selection actions. |
| Selection.QueryNameMissedByGlob | src/appwindow.cpp:503-507 | `a.jpg?w=1` matches the extension pattern but none of the globs, as the comment at those lines explains. |
| PyDownload.LoadIndex | src/wallpaper/cli.py:24-31 | A missing or unparsable index file reads as an empty dict. Otherwise it reads as the parsed document. |
| PyDownload.SuggestedName | src/wallpaper/cli.py:69-72 | The suggested name is non-empty and has no `/` or `?`. An empty last URL segment, or one starting with `?`, gives `wallpaper.jpg`. Otherwise the name is the segment up to its first `?`. |
| PyDownload.Suffix | src/wallpaper/cli.py:105 | The suffix is empty or a final `.xyz` part that is not the whole name, as pathlib defines it. |
| PyDownload.Stem | src/wallpaper/cli.py:105 | Stem followed by suffix rebuilds the name. |
| PyDownload.Candidate | src/wallpaper/cli.py:104-108 | Candidate 0 is the name itself. Every later candidate is longer than the name: stem, dash, counter and suffix. |
| PyDownload.CandidateDigits | src/wallpaper/cli.py:106-108 | A numbered candidate carries its counter's decimal digits right after the stem and the dash. |
| PyDownload.CandidateInjective | src/wallpaper/cli.py:106-109 | Different counters give different candidate names, so the collision loop never retries a name. |
| PyDownload.CandidateSetSize | src/wallpaper/cli.py:106-109 | The first n candidates are n distinct names. |
| PyDownload.TakenBound | src/wallpaper/cli.py:106-109 | The collision loop takes at most as many steps as there are existing files, so it terminates. |
| PyDownload.FirstFree | src/wallpaper/cli.py:104-109 | The chosen name is the first candidate that does not exist. All earlier candidates exist. |
| PyDownload.ReuseKnown | src/wallpaper/cli.py:62-67 | An unknown URL falls through. A non-dict entry or a non-string `filename` raises. Otherwise the entry's `filename` (default empty) is reused exactly when it resolves to an existing path, and falls through when it does not. |
| PyDownload.ScanHash | src/wallpaper/cli.py:93-101 | The scan returns the first entry in index order whose `sha256` matches and whose file exists. Every earlier entry passes without a match. No match means every entry passes. An error comes from the first entry that raises. |
| PyDownload.DownloadWith | src/wallpaper/cli.py:50-124 | A non-dict index fails. A reusable URL is returned without the network. A network error fails. After a download, a hash match returns the existing file, marked as fetched, with the URL recorded under that name and nothing stored; otherwise the bytes are stored exactly when the move succeeds, under the first free collision candidate. Every download records the URL as `{filename, sha256}`. |
| PyDownload.DownloadImage | src/wallpaper/cli.py:50-124 | This is the corrected download. Every result names a non-empty file that exists or was just stored. A reusable URL is returned without the network. An unknown URL whose download hashes to a file already present returns that file, with the URL recorded under it and nothing stored. An unknown URL with a download, a clean hash scan and a successful move always succeeds. |
| PyDownload.DownloadAgainReuses | src/wallpaper/cli.py:62-67 | Downloading the same URL again against the index and directory the first call left reuses the file without the network. |
| PyDownload.EmptyFilenameReturnsDirectory | src/wallpaper/cli.py:62-67 | An index entry without `filename` makes the as-written download return the directory. The corrected download goes to the network. |
| Listing.UnescapeAmp | src/wallpaper/reddit.py:48 | Replacing `&amp;` never lengthens a URL and leaves URLs without `&amp;` alone. |
| Listing.UnescapeEscape | src/wallpaper/reddit.py:47-48 | Unescaping undoes HTML-escaping of ampersands. |
| Listing.UnescapeOnceOnly | src/wallpaper/reddit.py:48 | A doubly escaped ampersand is unescaped once only, as `str.replace` does. |
| Listing.ClassifyPy | src/wallpaper/reddit.py:52-65 | A non-gallery post URL is kept, or gets `.jpg` appended, or is dropped. It is dropped exactly when it has no image extension and mentions none of `imgur.com/`, `i.redd.it` and `i.imgur.com`. An extensionless imgur link always gets `.jpg`. A URL with an image extension, in any case, is kept verbatim, and so is every other kept URL that is not an extensionless imgur link. |
| Listing.DictGet | src/wallpaper/reddit.py:31-33 | `x.get(key, default)` succeeds exactly on dicts and returns the member or the default. |
| Listing.PyIter | src/wallpaper/reddit.py:32 | Iterating a list yields its items. Iterating a non-iterable raises. |
| Listing.GalleryFirst | src/wallpaper/reddit.py:39-50 | A gallery contributes at most one URL. It contributes nothing exactly when no media item has a truthy `s.u`. Otherwise the URL is the unescaped `s.u` of the first media item that has one, and every earlier item has none. An error comes from the first item that raises. |
| Listing.GalleryShift | src/wallpaper/reddit.py:42-49 | A media item without a truthy `s.u` that does not raise is skipped: what the rest of the gallery contributes is what the whole contributes. |
| Listing.ChildUrls | src/wallpaper/reddit.py:32-65 | Each post contributes at most one URL. A child or `data` that is not a dict raises. |
| Listing.ChildUrlsCases | src/wallpaper/reddit.py:33-65 | A post without a truthy URL contributes nothing. A gallery contributes what its first media item gives, and raises when `media_metadata` is not a dict. Any other post contributes what the classifier makes of its URL, and raises when the URL is not a string. |
| Listing.ChildrenUrls | src/wallpaper/reddit.py:30-67 | The URL list is no longer than the list of posts. It is produced exactly when no post raises. |
| Listing.ExtractImageUrls | src/wallpaper/reddit.py:23-31 | A listing that is not a dict raises. A dict without `data` yields no URLs. |
| Listing.ExtractCases | src/wallpaper/reddit.py:23-67 | Any listing: a non-dict listing or `data` raises, and `children` that cannot be iterated raise. Otherwise the URLs are exactly those of the iterated children, in child order. |
| Listing.ExtractTestListing | tests/test_core.py:9-22 | The unit-test listing yields the direct `i.redd.it` link followed by the imgur link with `.jpg`. |
| Listing.TestDirectUrlKept | tests/test_core.py:14 | A direct `i.redd.it` jpg link is kept unchanged. |
| Listing.TestImgurUrlCoerced | tests/test_core.py:15 | An extensionless imgur page gets `.jpg` appended. |
| Listing.ImgurPageGetsJpg | src/wallpaper/reddit.py:53-54 | Any `imgur.com/` URL without an image extension is coerced to `.jpg` by the Python reader. The legacy C++ reader does the same unless it is an album link. |
| Listing.JpgKept | src/wallpaper/reddit.py:58-59 | Any URL ending in `.jpg` (any case) is kept as it is. |
| Listing.QtPostUrl | cpp/src/main.cpp:39-42 | A post's URL is `url_overridden_by_dest` when that is non-empty, and `url` otherwise. It is empty exactly when both are empty or absent. |
| Listing.CppCandidate | cpp/src/main.cpp:42-49 | A URL is dropped exactly when it is empty, or is extensionless and is not a single-image imgur link. A direct image URL is kept unchanged. An extensionless single-image imgur link becomes the URL plus `.jpg`. Every candidate is one of those two and ends in an image extension. |
| Listing.CppCandidates | cpp/src/main.cpp:37-50 | There is at most one candidate per post. All candidates end in an image extension, and every post's candidate is present. |
| Listing.CppCandidatesAppend | cpp/src/main.cpp:38-50 | The candidates of two runs of posts are those of the first run followed by those of the second, so candidates keep post order. |
| Listing.CandidateFromPost | cpp/src/main.cpp:38-49 | Every candidate is the candidate of some post of the listing. |
| Listing.PickImageUrlFromListing | cpp/src/main.cpp:31-57 | A non-object body gives empty. Otherwise the result is empty exactly when there are no candidates, and it is always one of the candidates. |
| Listing.PostUrls | src/redditfetcher.cpp:32-35 | There is one URL per child, in order. |
| Listing.FetchRecentImageUrls | src/redditfetcher.cpp:21-42 | A network error or a non-object reply gives nothing. Otherwise the result is the posts' URLs kept by the fetcher's test, in child order. |
| Listing.KeepAll | src/redditfetcher.cpp:32-41 | The loop keeps exactly the non-empty URLs that end in a direct extension or mention `imgur.com`, in order. |
| Listing.DirectLinksAgree | src/wallpaper/reddit.py:58-59 | A direct image link is kept unchanged by both the Python and the C++ reader. |
| Listing.FetcherExtensionImpliesCandidate | src/redditfetcher.cpp:37 | A URL the fetcher keeps for its extension is also a candidate of the legacy reader. |
| Listing.AlbumsDisagree | cpp/src/main.cpp:47 | An imgur album link is coerced by the Python reader but dropped by the legacy C++ reader. |
| Desktop.DesktopVar | src/wallpaper/wallpaper.py:22 | The variable consulted is `XDG_CURRENT_DESKTOP` when truthy, else `DESKTOP_SESSION` when truthy, else none. |
| Desktop.DetectDesktop | src/wallpaper/wallpaper.py:17-26 | There is no desktop exactly when both variables are unset or empty. Otherwise the result is the consulted variable's text after its last `:`, trimmed, so it contains no `:` and has no surrounding whitespace. |
| Desktop.DetectPlainName | src/wallpaper/wallpaper.py:22-26 | A plain trimmed name without `:` is reported unchanged. |
| Desktop.DetectGnomeTest | tests/test_core.py:26-32 | With `XDG_CURRENT_DESKTOP=GNOME` the detected desktop is `GNOME` and contains `GNOME` in upper case. |
| Desktop.PlanFor | src/wallpaper/wallpaper.py:145-165 | The backend order has 5 to 7 entries. It ends with GNOME, KDE, feh, xwallpaper, swaybg, and contains every generic backend. |
| Desktop.PlanForShape | src/wallpaper/wallpaper.py:145-153 | The order has one extra entry per named desktop. It starts with GNOME exactly when GNOME is named, and has KDE just before the generic five exactly when KDE is named. |
| Desktop.PlanPrefix | src/wallpaper/wallpaper.py:142-165 | The plan for a desktop has that shape, with GNOME and KDE named when the desktop text contains them in upper case. |
| Desktop.TryInOrder | src/wallpaper/wallpaper.py:146-168 | Backends are tried in plan order until one works. Every earlier one failed, and success holds exactly when some backend in the plan works. |
| Desktop.FirstWorking | src/wallpaper/wallpaper.py:146-168 | The position found is that of a working backend, or the end of the plan. Every backend before it fails. |
| Desktop.SetWallpaperPy | src/wallpaper/wallpaper.py:137-168 | Setting succeeds exactly when some backend works. The last backend called is the one that worked, and all earlier ones failed. |
| Desktop.AttemptsFollowPlan | src/wallpaper/wallpaper.py:142-165 | The backends called are a prefix of the plan for the preferred desktop (when truthy) or the detected one. When nothing works, the whole plan is called. |
| Desktop.PyArgs | src/wallpaper/wallpaper.py:30-111 | GNOME and KDE pass the `file://` URI of the absolute path. feh, xwallpaper and swaybg pass the path as given. |
| Desktop.Works | src/wallpaper/wallpaper.py:29-119 | A Python backend works when its tool is on `PATH` and its command exits with status 0. It runs nothing when the tool is missing. |
| Desktop.PreferenceOnlyReorders | src/wallpaper/wallpaper.py:142-165 | The preferred desktop changes the order of attempts but never whether setting succeeds. |
| Desktop.GnomeFirstOnGnome | src/wallpaper/wallpaper.py:142-148 | When the preferred desktop, or else the detected one, names GNOME in any case and `gsettings` works, only the GNOME backend is called. |
| Desktop.GnomeFirstOnLowerPreference | src/wallpaper/wallpaper.py:142-148 | The preference `gnome` in lower case also calls only the GNOME backend when `gsettings` works. |
| Desktop.DetectCpp | src/wallpapersetter.cpp:10-41 | The result is GNOME exactly when any of the three variables mentions `gnome`. It is KDE exactly when it is not GNOME and the KDE markers are present. After that comes the session type. |
| Desktop.Probed | src/wallpapersetter.cpp:115-129 | `which` runs first. The tool runs, with its arguments, exactly when the probe passes. Success holds exactly when the tool ran and its run succeeded. |
| Desktop.SetWallpaperCpp | src/wallpapersetter.cpp:43-93 | A missing file runs nothing. GNOME runs both `gsettings` commands and succeeds if either does. KDE runs the KDE method. X11 and unknown run the feh-then-xwallpaper fallback. Wayland does nothing. Any success comes from a command that succeeded. |
| Desktop.CppKde | src/wallpapersetter.cpp:95-113 | KDE runs exactly one command, `qdbus` evaluating the Plasma script for the image. It succeeds exactly when that command does. |
| Desktop.CppX11 | src/wallpapersetter.cpp:63-68 | The X11 fallback probes `feh` first. When feh succeeds, that is the whole outcome. Otherwise xwallpaper is probed after it. Success holds exactly when either tool succeeded. |
| Desktop.RunCommand | src/wallpapersetter.cpp:147-168 | A command succeeds when it started, finished within 5 seconds and exited with status 0. |
| Desktop.WhichPasses | src/wallpapersetter.cpp:119-123 | The `which` probe passes when `exitCode()` reads 0. That includes a probe that did not start or did not finish within 30 seconds. |
| Desktop.GnomeDetectionsAgree | src/wallpapersetter.cpp:14-22 | Whenever the Python detection reports a GNOME desktop, the C++ detection does too. |
| Sources.TypedName | src/sourcespanel.cpp:40-43 | The added name is the trimmed text with one leading `r/` removed. |
| Sources.AddAsWritten | src/sourcespanel.cpp:39-52 | Empty trimmed text, or a name already listed ignoring case, changes nothing and emits nothing. Otherwise the name is appended, the field cleared and the full list emitted. |
| Sources.Add | src/sourcespanel.cpp:39-52 | This is the corrected Add. It is the same, except an empty name after removing `r/` is also refused. |
| Sources.AddKeepsWellFormed | src/sourcespanel.cpp:45-48 | Add keeps the list free of empty names and of duplicates ignoring case. |
| Sources.AddTwiceIsNoOp | src/sourcespanel.cpp:45-48 | Adding the same text again right after it was added changes nothing and emits nothing. |
| Sources.AddAcceptsBarePrefix | src/sourcespanel.cpp:41-43 | The as-written Add lists an empty name for the text `r/`. The corrected Add refuses it. |
| Sources.Remove | src/sourcespanel.cpp:54-61 | The new list is the old one with exactly the selected rows deleted, in order, counting duplicates by position. Every unselected row is kept, and the list is always emitted. |
| Sources.UnselectedIsKept | src/sourcespanel.cpp:55-58 | The rows the removal loop leaves are exactly the reference list of unselected rows. |
| Sources.KeptAppend | src/sourcespanel.cpp:55-58 | Deleting rows from two parts of a list is deleting them from each part, with positions offset by the first part's length. |
| Sources.RemoveDropsSelected | src/sourcespanel.cpp:55-58 | In a duplicate-free list, a selected name is gone afterwards. |
| Sources.RemoveKeepsWellFormed | src/sourcespanel.cpp:54-61 | Remove keeps the list free of empty names and duplicates. |
| Sources.SetSources | src/sourcespanel.cpp:64-75 | The list is replaced wholesale and read back as given. The timestamps and the text field are untouched. |
| Sources.SetLastUpdated | src/sourcespanel.cpp:132-136 | An empty subreddit changes nothing. Otherwise its time is recorded and every other entry is kept. |
| Sources.ArrayStrings | src/sourcespanel.cpp:86-88 | The array form yields exactly its string elements, with no more names than elements. |
| Sources.ArrayStringsAppend | src/sourcespanel.cpp:86-88 | The names of two runs of array elements are those of the first run followed by those of the second, so names keep element order and multiplicity. |
| Sources.Stamps | src/sourcespanel.cpp:89-98 | The object form records a time exactly for keys whose value is a string that parses as an ISO date. |
| Sources.Load | src/sourcespanel.cpp:77-106 | A missing or unopenable file changes nothing. Any opened file clears the timestamps first. An array yields its string elements in order. An object yields its keys in order and their parsed dates. Any other document returns false with the list unchanged. The list is emitted exactly on success. |
| Sources.SaveMembers | src/sourcespanel.cpp:110-118 | The saved object has exactly one key per source. Its value is the ISO timestamp, or empty when the time is unknown. |
| Sources.Save | src/sourcespanel.cpp:108-125 | Nothing is written when the file cannot be opened. Otherwise the written object maps every source to its timestamp text. |
| Sources.SaveLoadRoundTrip | src/sourcespanel.cpp:77-125 | Loading what was saved restores the set of source names and the timestamps of the listed sources. This assumes formatting and parsing invert each other. |
| Sources.StampSurvivesSave | src/sourcespanel.cpp:132-136 | A time recorded for a listed source is read back after a save and a load. |
| UpdateWorker.BatchAt | src/updateworker.cpp:26-28 | The k-th download for a subreddit is that subreddit with the fetcher's k-th link. |
| UpdateWorker.Calls | src/updateworker.cpp:22-28 | Every download is for a listed subreddit and a link the fetcher returned for it. |
| UpdateWorker.CallsAreBatches | src/updateworker.cpp:22-26 | Downloads happen subreddit by subreddit in list order, and each subreddit's links in the fetcher's order. |
| UpdateWorker.AnnounceSound | src/updateworker.cpp:28-31 | Only downloads that returned a non-empty path are reported, each with its own subreddit and link. |
| UpdateWorker.AnnounceComplete | src/updateworker.cpp:28-31 | Every download that returned a path is reported. |
| UpdateWorker.Trace | src/updateworker.cpp:13-38 | `finished` is emitted exactly once, as the last signal. A missing fetcher or cache emits only `error` then `finished`. A normal run emits no error, and every `imageCached` has a non-empty path from a real download. |
| UpdateWorker.EveryCachedImageReported | src/updateworker.cpp:26-31 | Each download that landed in the cache appears in the trace. |
| UpdateWorker.DownloadBatch | src/updateworker.cpp:26-34 | The inner loop downloads one subreddit's links in order and appends their reports. |
| UpdateWorker.Start | src/updateworker.cpp:13-38 | The loops emit exactly the trace described by `Trace`. |

## Left out

- Widgets, layouts, the tray, and thumbnails. Label eliding and message boxes are also left out. The model keeps only the data the handlers compute.
- Real I/O. Files, the network, processes and clocks are parameters. The model does not model partial writes, permissions, or the atomic replace done by `QSaveFile` and `Path.replace`.
- SHA-256 is an uninterpreted function from bytes to a hex string. Chunked hashing of a file (`sha256_of_file`) is therefore not modelled.
- Random choice is `roll` modulo the number of candidates. The distribution of `QRandomGenerator` and `std::mt19937` is not modelled.
- Threading. The cleanup task runs on a thread pool and the update job on a worker thread; the model treats each as one sequential step.
- The image filters (`acceptsImage`) are an arbitrary predicate. Aspect-ratio computation belongs to the thumbnail viewer.
- JSON text. Documents are trees, so parsing and serialisation, indentation, and duplicate keys in a text are not modelled.
- Object key order is the order of the members as given. Qt sorts the keys of a `QJsonObject`; the sources round trip is therefore stated about the set of names, not their order.
- Case folding and whitespace are ASCII only. Qt and Python fold and trim the whole of Unicode.
- Desktop.DetectDesktop: trims Qt's ASCII whitespace (space, tab, LF, VT, FF, CR). Python's `str.strip` also removes the separators `\x1c` to `\x1f`, so a variable ending in one of them detects a desktop name without it in Python but keeps it in the model.
- `QUrl` normalisation is approximated by cutting at the first `?` or `#`. Percent-encoding and host case are not normalised.
- File names containing `/`, and pathlib's handling of `.` and `..`, are not modelled.
- `QDir` listing order and the exclusion of symbolic links are the parameter's business. The glob listing excludes hidden files.
- The 15-second and 30-second network timeouts are not modelled. A timeout is just a network error.
- Process runs. Each command's result is one deterministic value per command.
- KDE script text. The script is built but its JavaScript is not interpreted.
- The Python `available_backends`, `cli.run`, the `main` entry points and the GUI are not part of this model. A failure of `save_index` is also not modelled.
- The Python code raises for malformed index entries, for example a non-dict entry or a missing `filename` on a same-hash entry. Those exceptions collapse into an error result: the model says that an error occurs, not which exception or at which statement.
- Qt signals other than the ones listed, and the UI refresh after an index write.
- Json: numbers are integers only. A non-integral `auto_interval`, which `toInt` turns into the default 15 (src/appwindow.cpp:274), and Python floats in documents are not modelled.
- Desktop.PyArgs: the relation between a path and its absolute form is not modelled. It depends on the working directory, so the model takes both as given.
- CacheIndex.ToggleFavorite: gives the index that is written. A failed `writeIndex`, which leaves the old file in place, is not modelled for the favourite toggles.
- Sources.SaveLoadRoundTrip: states that the set of names is restored, not the list order. Qt sorts object keys on load.
- Sources.Load: invalid `QDateTime` values and sub-second precision are not modelled. Times are whole seconds.
- UpdateWorker.Start: the 150 ms throttle between downloads is not modelled. The limit of 10 posts is passed to the fetcher, which the model treats as given.

## Findings

| source | as written | input that shows it | evidently intended | confidence | as-written member | corrected member |
|---|---|---|---|---|---|---|
| src/wallpaper/cli.py:62-67 | `dest_dir / entry.get("filename", "")` with a missing filename is the directory itself, which exists, so the directory is returned as the image | index `{"http://x/a.jpg": {"sha256": "00"}}` and URL `http://x/a.jpg` | a missing or empty filename means the URL has no usable file and must be downloaded | not executed | PyDownload.DownloadImageAsWritten (shown by PyDownload.EmptyFilenameReturnsDirectory) | PyDownload.DownloadImage |
| src/sourcespanel.cpp:40-43 | the emptiness test runs on the trimmed text before the leading `r/` is removed, so the text `r/` adds an empty subreddit name | an empty list, and the text `r/` in the field, then Add | an empty name after normalisation is refused like empty input | not executed | Sources.AddAsWritten (shown by Sources.AddAcceptsBarePrefix) | Sources.Add |
