/** The `index.json` sidecar of the image cache and the read-modify-write
    handlers the main window applies to it: cleanup by subreddit, favorite
    toggling, permaban, and the `imageCached` bookkeeping (the `url_map.json`
    list of subreddits per source URL and the "set subreddit if missing"
    fill).  Each handler is one atomic update of a finite map. */
module CacheIndex {
  import opened Wrappers
  import opened Strings
  import opened Json

  /** The decoded `index.json`: cached file name -> entry record. */
  type Index = map<string, Json>

  /** The decoded `url_map.json`: normalised source URL -> list of subreddits. */
  type UrlMap = map<string, Json>

  /** `QFileInfo(path).fileName()`: the last `/`-separated component, that
      is, the longest suffix of the path free of `/`. */
  function FileName(path: string): (name: string)
    ensures '/' !in name
    ensures EndsWith(path, name)
    ensures |name| < |path| ==> path[|path| - |name| - 1] == '/'
  {
    AfterLast(path, '/')
  }

  /** `readIndex`: the top-level object's members, or an empty index when the
      file is missing, unreadable or not a JSON object (`doc` is None when the
      file could not be opened or parsed). */
  function ReadIndex(doc: Option<Json>): (idx: Index)
    ensures doc.Some? && doc.value.JObj? ==>
      forall k :: k in idx <==> HasKey(doc.value.members, k)
    ensures doc.Some? && doc.value.JObj? ==>
      forall k :: k in idx ==> Get(doc.value.members, k) == Some(idx[k])
    ensures !(doc.Some? && doc.value.JObj?) ==> idx == map[]
  {
    if doc.Some? && doc.value.JObj? then ToMap(doc.value.members) else map[]
  }

  // ---- entry fields, read the way the handlers read them ----

  /** `root.value(key).toObject()`: a missing or non-object entry reads as {}. */
  function Entry(idx: Index, key: string): Members {
    if key in idx then ToObject(idx[key]) else []
  }

  function SubredditOf(e: Members): string { ToStr(Field(e, "subreddit")) }
  function ThumbnailOf(e: Members): string { ToStr(Field(e, "thumbnail")) }
  predicate IsFavorite(e: Members) { ToBool(Field(e, "favorite"), false) }
  predicate IsBanned(e: Members) { ToBool(Field(e, "banned"), false) }

  /** The entry `key` of `after` differs from that of `before` at most in `field`. */
  ghost predicate OnlyFieldChanged(before: Index, after: Index, key: string, field: string) {
    forall f :: f != field ==> Get(Entry(after, key), f) == Get(Entry(before, key), f)
  }

  /** Every key other than `key` is present in both or neither, with the same entry. */
  ghost predicate OtherKeysUnchanged(before: map<string, Json>, after: map<string, Json>, key: string) {
    forall k :: k != key ==> (k in after <==> k in before) && (k in before ==> after[k] == before[k])
  }

  /** Writes `entry[field] = v` into `root[key]`, keeping the entry's other fields. */
  function SetEntryField(root: Index, key: string, field: string, v: Json): (r: Index)
    ensures key in r
    ensures Get(Entry(r, key), field) == Some(v)
    ensures OnlyFieldChanged(root, r, key, field)
    ensures OtherKeysUnchanged(root, r, key)
  {
    var e := Entry(root, key);
    GetSetAll(e, field, v);
    root[key := JObj(Set(e, field, v))]
  }

  // ---- CleanupTask::run ----

  /** The entry `k` names a subreddit, and that subreddit is not allowed. */
  predicate Disallowed(root: Index, allowed: set<string>, k: string)
    requires k in root
  {
    var sub := SubredditOf(ToObject(root[k]));
    sub != "" && sub !in allowed
  }

  /** The keys cleanup removes. */
  function Doomed(root: Index, allowed: set<string>): set<string> {
    set k | k in root && Disallowed(root, allowed, k)
  }

  /** The `thumbnail` field of every entry. */
  function Thumbnails(root: Index): (tm: map<string, string>)
    ensures tm.Keys == root.Keys
    ensures forall k :: k in root ==> tm[k] == ThumbnailOf(ToObject(root[k]))
  {
    map k | k in root :: ThumbnailOf(ToObject(root[k]))
  }

  /** The non-empty thumbnails of the entries `keys` (`blank` is the empty name). */
  function ThumbnailsOf<K, T(==)>(tm: map<K, T>, keys: set<K>, blank: T): set<T> {
    set k | k in keys && k in tm && tm[k] != blank :: tm[k]
  }

  lemma ThumbnailsOfInsert<K, T>(tm: map<K, T>, keys: set<K>, k: K, blank: T)
    ensures ThumbnailsOf(tm, keys + {k}, blank) ==
      ThumbnailsOf(tm, keys, blank) + (if k in tm && tm[k] != blank then {tm[k]} else {})
  {
    var lhs := ThumbnailsOf(tm, keys + {k}, blank);
    forall x | x in lhs ensures x in ThumbnailsOf(tm, keys, blank) || (k in tm && x == tm[k]) {
      var k' :| k' in keys + {k} && k' in tm && tm[k'] != blank && x == tm[k'];
      if k' != k {
        assert x in ThumbnailsOf(tm, keys, blank);
      }
    }
  }

  lemma RemoveOneMore<K, V>(root: map<K, V>, done: set<K>, k: K)
    ensures (root - done) - {k} == root - (done + {k})
  {
  }

  lemma MoveOne<K>(all: set<K>, rest: set<K>, k: K)
    requires rest <= all && k in rest
    ensures (all - rest) + {k} == all - (rest - {k})
    ensures rest - {k} <= all
  {
  }

  /** The index cleanup writes back: `root` without the doomed keys. */
  function Cleaned(root: Index, allowed: set<string>): Index {
    root - Doomed(root, allowed)
  }

  /** What a cleanup run leaves behind: the rewritten index and the cache
      files it deleted (each doomed image and its non-empty thumbnail). */
  datatype CleanupResult = CleanupResult(index: Index, removedFiles: set<string>)

  /** The first loop of `CleanupTask::run`: the keys whose subreddit is set
      and not allowed. */
  method CollectDoomed(root: Index, allowed: set<string>) returns (toRemove: set<string>)
    ensures forall k :: k in toRemove <==> k in root && Disallowed(root, allowed, k)
  {
    var pending := root.Keys;
    toRemove := {};
    while pending != {}
      invariant pending <= root.Keys
      invariant forall k :: k in toRemove <==> k in root && k !in pending && Disallowed(root, allowed, k)
      decreases |pending|
    {
      var k :| k in pending;
      if Disallowed(root, allowed, k) {
        toRemove := toRemove + {k};
      }
      pending := pending - {k};
    }
  }

  /** One pass of the second loop: deletes `k`'s image and its non-empty
      thumbnail, and drops `k` from the index. */
  method RemoveOne<K, V, T(==)>(index: map<K, V>, removed: set<K>, removedThumbs: set<T>,
                                tm: map<K, T>, blank: T, k: K)
    returns (index': map<K, V>, removed': set<K>, removedThumbs': set<T>)
    requires removedThumbs == ThumbnailsOf(tm, removed, blank)
    ensures index' == index - {k}
    ensures removed' == removed + {k}
    ensures removedThumbs' == ThumbnailsOf(tm, removed', blank)
  {
    ThumbnailsOfInsert(tm, removed, k, blank);
    removedThumbs' := removedThumbs;
    if k in tm && tm[k] != blank {
      removedThumbs' := removedThumbs' + {tm[k]};
    }
    removed' := removed + {k};
    index' := index - {k};
  }

  /** The second loop of `CleanupTask::run`: deletes each key's image file
      and non-empty thumbnail (`tm` holds each entry's thumbnail) and drops
      the key from the index. */
  method RemoveEntries<K, V, T(==)>(root: map<K, V>, tm: map<K, T>, blank: T, toRemove: set<K>)
    returns (index: map<K, V>, removed: set<K>, removedThumbs: set<T>)
    ensures index == root - toRemove
    ensures removed == toRemove
    ensures removedThumbs == ThumbnailsOf(tm, toRemove, blank)
  {
    index := root;
    removed := {};
    removedThumbs := {};
    var rest := toRemove;
    assert removed == toRemove - rest;
    while rest != {}
      invariant rest <= toRemove
      invariant removed == toRemove - rest
      invariant index == root - removed
      invariant removedThumbs == ThumbnailsOf(tm, removed, blank)
      decreases |rest|
    {
      var k :| k in rest;
      RemoveOneMore(root, removed, k);
      MoveOne(toRemove, rest, k);
      index, removed, removedThumbs := RemoveOne(index, removed, removedThumbs, tm, blank, k);
      rest := rest - {k};
    }
    assert toRemove - rest == toRemove;
  }

  /** `CleanupTask::run`: removes exactly the entries whose subreddit is set
      and not allowed, together with their files; every other entry is
      written back unchanged. */
  method Cleanup(root: Index, allowed: set<string>) returns (r: CleanupResult)
    ensures forall k :: k in r.index <==> k in root && !Disallowed(root, allowed, k)
    ensures forall k :: k in r.index ==> r.index[k] == root[k]
    ensures r.removedFiles == Doomed(root, allowed) + ThumbnailsOf(Thumbnails(root), Doomed(root, allowed), "")
  {
    var toRemove := CollectDoomed(root, allowed);
    assert toRemove == Doomed(root, allowed);
    var index, removed, thumbs := RemoveEntries(root, Thumbnails(root), "", toRemove);
    r := CleanupResult(index, removed + thumbs);
  }

  /** After cleanup every remaining entry names no subreddit or an allowed one. */
  lemma CleanedOnlyAllowed(root: Index, allowed: set<string>)
    ensures forall k :: k in Cleaned(root, allowed) ==>
      SubredditOf(ToObject(Cleaned(root, allowed)[k])) == "" ||
      SubredditOf(ToObject(Cleaned(root, allowed)[k])) in allowed
  {
  }

  /** A second cleanup with the same allowed set changes nothing. */
  lemma CleanupIdempotent(root: Index, allowed: set<string>)
    ensures Cleaned(Cleaned(root, allowed), allowed) == Cleaned(root, allowed)
  {
    var once := Cleaned(root, allowed);
    assert Doomed(once, allowed) == {};
  }

  /** Allowing more subreddits never removes more entries. */
  lemma CleanupMonotone(root: Index, allowed: set<string>, more: set<string>)
    requires allowed <= more
    ensures Cleaned(root, allowed).Keys <= Cleaned(root, more).Keys
  {
  }

  // ---- favorite toggling ----

  /** Flips `favorite` of `root[key]`, a missing flag reading as false. */
  function ToggleFavoriteAt(root: Index, key: string): (r: Index)
    ensures key in r
    ensures IsFavorite(Entry(r, key)) == !IsFavorite(Entry(root, key))
    ensures OnlyFieldChanged(root, r, key, "favorite")
    ensures OtherKeysUnchanged(root, r, key)
  {
    SetEntryField(root, key, "favorite", JBool(!IsFavorite(Entry(root, key))))
  }

  /** The path the tray's favorite action works on: the selected thumbnail
      if any, else the current wallpaper. */
  function FavoriteTarget(selected: string, current: string): string {
    if selected == "" then current else selected
  }

  /** `onToggleFavorite`: toggles the entry of the selected path, falling back
      to the current wallpaper; with neither, the index is left alone. */
  function ToggleFavorite(root: Index, selected: string, current: string): (r: Index)
    ensures selected == "" && current == "" ==> r == root
    ensures selected != "" ==>
      IsFavorite(Entry(r, FileName(selected))) == !IsFavorite(Entry(root, FileName(selected)))
    ensures selected == "" && current != "" ==>
      IsFavorite(Entry(r, FileName(current))) == !IsFavorite(Entry(root, FileName(current)))
    ensures FavoriteTarget(selected, current) != "" ==>
      OnlyFieldChanged(root, r, FileName(FavoriteTarget(selected, current)), "favorite")
    ensures OtherKeysUnchanged(root, r, FileName(FavoriteTarget(selected, current)))
  {
    var target := FavoriteTarget(selected, current);
    if target == "" then root else ToggleFavoriteAt(root, FileName(target))
  }

  /** `onThumbnailFavoriteRequested`: toggles the entry of the clicked
      thumbnail; an empty path changes nothing. */
  function ThumbnailFavorite(root: Index, imagePath: string): (r: Index)
    ensures imagePath == "" ==> r == root
    ensures imagePath != "" ==>
      IsFavorite(Entry(r, FileName(imagePath))) == !IsFavorite(Entry(root, FileName(imagePath)))
      && OnlyFieldChanged(root, r, FileName(imagePath), "favorite")
    ensures OtherKeysUnchanged(root, r, FileName(imagePath))
  {
    if imagePath == "" then root else ToggleFavoriteAt(root, FileName(imagePath))
  }

  /** Two toggles restore the favorite reading of every entry. */
  lemma ToggleTwiceRestores(root: Index, key: string, k: string)
    ensures IsFavorite(Entry(ToggleFavoriteAt(ToggleFavoriteAt(root, key), key), k))
         == IsFavorite(Entry(root, k))
  {
  }

  // ---- permaban ----

  /** Sets `banned = true` on `root[key]`. */
  function BanAt(root: Index, key: string): (r: Index)
    ensures key in r
    ensures IsBanned(Entry(r, key))
    ensures OnlyFieldChanged(root, r, key, "banned")
    ensures OtherKeysUnchanged(root, r, key)
  {
    SetEntryField(root, key, "banned", JBool(true))
  }

  /** Banning an already-banned entry again changes nothing. */
  lemma {:induction false} BanIdempotent(root: Index, key: string)
    ensures BanAt(BanAt(root, key), key) == BanAt(root, key)
  {
    var e := Entry(root, key);
    assert Entry(BanAt(root, key), key) == Set(e, "banned", JBool(true));
    SetSetSame(e, "banned", JBool(true));
  }

  /** The written index and whether a random favorite is scheduled next. */
  datatype BanOutcome = BanOutcome(index: Index, scheduleFavorite: bool)

  /** `onThumbnailPermabanRequested`: bans the clicked thumbnail; a new random
      favorite is scheduled only when the write succeeded and the banned key
      is the current wallpaper's file name. */
  function ContextPermaban(root: Index, imagePath: string, current: string, writeOk: bool): (o: BanOutcome)
    ensures imagePath == "" || !writeOk ==> o.index == root && !o.scheduleFavorite
    ensures imagePath != "" && writeOk ==>
      IsBanned(Entry(o.index, FileName(imagePath)))
      && OnlyFieldChanged(root, o.index, FileName(imagePath), "banned")
      && OtherKeysUnchanged(root, o.index, FileName(imagePath))
    ensures o.scheduleFavorite <==>
      imagePath != "" && writeOk && current != "" && FileName(current) == FileName(imagePath)
    ensures o.scheduleFavorite ==> IsBanned(Entry(o.index, FileName(current)))
  {
    if imagePath == "" || !writeOk then BanOutcome(root, false)
    else
      var key := FileName(imagePath);
      BanOutcome(BanAt(root, key), current != "" && FileName(current) == key)
  }

  /** `onPermaban` (tray): bans the current wallpaper and, once written,
      always schedules a new random favorite; with no current wallpaper
      nothing happens. */
  function TrayPermaban(root: Index, current: string, writeOk: bool): (o: BanOutcome)
    ensures current == "" || !writeOk ==> o.index == root && !o.scheduleFavorite
    ensures o.scheduleFavorite <==> current != "" && writeOk
    ensures o.scheduleFavorite ==>
      IsBanned(Entry(o.index, FileName(current))) && OnlyFieldChanged(root, o.index, FileName(current), "banned")
      && OtherKeysUnchanged(root, o.index, FileName(current))
  {
    if current == "" || !writeOk then BanOutcome(root, false)
    else BanOutcome(BanAt(root, FileName(current)), true)
  }

  // ---- imageCached: url_map.json ----

  /** `QUrl` with query and fragment cleared: the text before the first `?`
      or `#`. */
  function StripQueryAndFragment(url: string): (r: string)
    ensures '?' !in r && '#' !in r
    ensures StartsWith(url, r)
    ensures |r| < |url| ==> url[|r|] == '?' || url[|r|] == '#'
    decreases |url|
  {
    if |url| == 0 || url[0] == '?' || url[0] == '#' then ""
    else [url[0]] + StripQueryAndFragment(url[1..])
  }

  /** The subreddit names recorded in a `url_map` list (non-strings read as ""). */
  function SubList(arr: seq<Json>): (subs: seq<string>)
    ensures |subs| == |arr|
    ensures forall i :: 0 <= i < |arr| ==> subs[i] == ToStr(arr[i])
  {
    seq(|arr|, i requires 0 <= i < |arr| => ToStr(arr[i]))
  }

  predicate NoDuplicates(xs: seq<string>) {
    forall i, j :: 0 <= i < j < |xs| ==> xs[i] != xs[j]
  }

  /** The list stored for `norm`, an absent or non-array value reading as []. */
  function UrlList(urlmap: UrlMap, norm: string): seq<Json> {
    if norm in urlmap then ToArray(urlmap[norm]) else []
  }

  /** Records that `sourceUrl` was seen in `sub`: the list stored under the
      normalised URL gets `sub` appended unless it already holds it. */
  function RecordSource(urlmap: UrlMap, sourceUrl: string, sub: string): (r: UrlMap)
    ensures var norm := StripQueryAndFragment(sourceUrl);
      && norm in r
      && sub in SubList(UrlList(r, norm))
      && UrlList(urlmap, norm) <= UrlList(r, norm)
      && |UrlList(r, norm)| <= |UrlList(urlmap, norm)| + 1
      && (sub in SubList(UrlList(urlmap, norm)) ==> UrlList(r, norm) == UrlList(urlmap, norm))
      && (NoDuplicates(SubList(UrlList(urlmap, norm))) ==> NoDuplicates(SubList(UrlList(r, norm))))
      && OtherKeysUnchanged(urlmap, r, norm)
  {
    var norm := StripQueryAndFragment(sourceUrl);
    var arr := UrlList(urlmap, norm);
    var arr' := if sub in SubList(arr) then arr else arr + [JStr(sub)];
    assert SubList(arr') == SubList(arr) + (if sub in SubList(arr) then [] else [sub]);
    urlmap[norm := JArr(arr')]
  }

  /** Recording the same source twice is the same as recording it once. */
  lemma RecordSourceIdempotent(urlmap: UrlMap, sourceUrl: string, sub: string)
    ensures RecordSource(RecordSource(urlmap, sourceUrl, sub), sourceUrl, sub)
         == RecordSource(urlmap, sourceUrl, sub)
  {
  }

  // ---- imageCached: subreddit fill ----

  /** Sets the subreddit of the cached file's entry only when it has none,
      so an existing subreddit is never overwritten. */
  function FillSubreddit(root: Index, localPath: string, sub: string): (r: Index)
    ensures var key := FileName(localPath);
      && (SubredditOf(Entry(root, key)) != "" ==> r == root)
      && (SubredditOf(Entry(root, key)) == "" ==>
            SubredditOf(Entry(r, key)) == sub && OnlyFieldChanged(root, r, key, "subreddit"))
      && OtherKeysUnchanged(root, r, key)
  {
    var key := FileName(localPath);
    if SubredditOf(Entry(root, key)) == "" then SetEntryField(root, key, "subreddit", JStr(sub))
    else root
  }

  /** The `imageCached` handler: updates `url_map.json`, then fills the
      cached file's subreddit in `index.json`. */
  function OnImageCached(urlmap: UrlMap, root: Index, localPath: string, sub: string, sourceUrl: string)
    : (r: (UrlMap, Index))
    ensures var norm := StripQueryAndFragment(sourceUrl);
      && sub in SubList(UrlList(r.0, norm))
      && UrlList(urlmap, norm) <= UrlList(r.0, norm)
      && |UrlList(r.0, norm)| <= |UrlList(urlmap, norm)| + 1
      && (sub in SubList(UrlList(urlmap, norm)) ==> UrlList(r.0, norm) == UrlList(urlmap, norm))
      && OtherKeysUnchanged(urlmap, r.0, norm)
    ensures var key := FileName(localPath);
      && (SubredditOf(Entry(root, key)) != "" ==> r.1 == root)
      && (SubredditOf(Entry(root, key)) == "" ==>
            SubredditOf(Entry(r.1, key)) == sub && OnlyFieldChanged(root, r.1, key, "subreddit"))
      && OtherKeysUnchanged(root, r.1, key)
  {
    (RecordSource(urlmap, sourceUrl, sub), FillSubreddit(root, localPath, sub))
  }
}
