/** The C++ image cache: the cache directory, the content-addressed
    `downloadAndCache` (in its current form and its older variant, which
    differ only in the directory they store into), and the random pick of a
    cached image.  The network, SHA-256 and the file system are parameters:
    `fetch` is what the GET returned, `sha` the hex digest function, and
    `present` the set of full paths that exist before the call. */
module CacheManager {
  import opened Wrappers
  import opened Strings
  import opened Seqs

  type Bytes = seq<bv8>

  /** The reply of the GET request: a network error or the body. */
  datatype Fetch = NetworkError | Body(data: Bytes)

  /** The name used when the URL ends in `/`. */
  const DefaultName: string := "wallpaper.jpg"

  /** The cache directory relative to the home directory. */
  const CacheTail: string := "/.cache/wallpaper"

  /** `cacheDirPath`: always the same directory under the home directory. */
  function CacheDirPath(home: string): (p: string)
    ensures StartsWith(p, home) && EndsWith(p, CacheTail)
    ensures |p| == |home| + |CacheTail|
  {
    home + CacheTail
  }

  /** `QDir(dir).filePath(name)` for a name without `/`. */
  function JoinPath(dir: string, name: string): (p: string)
    ensures StartsWith(p, dir + "/") && EndsWith(p, name)
    ensures |p| == |dir| + 1 + |name|
    ensures AfterLast(p, '/') == name <== '/' !in name
  {
    var p := dir + "/" + name;
    assert '/' !in name ==> AfterLast(p, '/') == name by {
      if '/' !in name {
        AfterLastOfJoin(dir, name);
      }
    }
    p
  }

  lemma {:induction false} AfterLastOfJoin(dir: string, name: string)
    requires '/' !in name
    ensures AfterLast(dir + "/" + name, '/') == name
    decreases |name|
  {
    var p := dir + "/" + name;
    if |name| == 0 {
      assert p[|p| - 1] == '/';
    } else {
      assert p[..|p| - 1] == dir + "/" + name[..|name| - 1];
      assert name[|name| - 1] in name;
      AfterLastOfJoin(dir, name[..|name| - 1]);
      assert name == name[..|name| - 1] + [name[|name| - 1]];
    }
  }

  /** The file name taken from the URL: the text after the last `/` (query
      included), or `wallpaper.jpg` when that is empty. */
  function UrlName(url: string): (name: string)
    ensures name != "" && '/' !in name
    ensures AfterLast(url, '/') != "" ==> name == AfterLast(url, '/')
    ensures AfterLast(url, '/') == "" ==> name == DefaultName
  {
    var n := AfterLast(url, '/');
    if n == "" then DefaultName else n
  }

  /** The content-addressed name: hex digest, a dot, and the text after the
      last `.` of the URL name (all of it when it has no dot). */
  function HashName(hexDigest: string, name: string): (out: string)
    ensures StartsWith(out, hexDigest + ".") && EndsWith(out, AfterLast(name, '.'))
    ensures |out| == |hexDigest| + 1 + |AfterLast(name, '.')|
  {
    hexDigest + "." + AfterLast(name, '.')
  }

  /** What one call did: the returned path ("" on failure), whether the
      network was used, and the file it wrote, if any. */
  datatype StoreOutcome = StoreOutcome(path: string, fetched: bool, written: Option<(string, Bytes)>)

  /** The cache directory's files after the call. */
  function After(present: set<string>, o: StoreOutcome): set<string> {
    if o.written.Some? then present + {o.written.value.0} else present
  }

  /** The part of a call after the body arrived: the digest name `out` is
      returned when that file exists, written when it does not, and the
      call fails when the file cannot be opened for writing. */
  function StoreBody(base: string, name: string, present: set<string>, data: Bytes,
                     sha: Bytes -> string, writeOk: bool): (o: StoreOutcome)
    ensures o.fetched
    ensures var out := JoinPath(base, HashName(sha(data), name));
      && (o.path != "" ==> o.path == out)
      && (out in present ==> o.path == out && o.written.None?)
      && (out !in present ==> (o.path == "" <==> !writeOk))
      && (o.written.Some? <==> out !in present && writeOk)
      && (o.written.Some? ==> o.written.value == (out, data))
  {
    var out := JoinPath(base, HashName(sha(data), name));
    if out in present then StoreOutcome(out, true, None)
    else if !writeOk then StoreOutcome("", true, None)
    else StoreOutcome(out, true, Some((out, data)))
  }

  /** The body shared by both `downloadAndCache` variants, once the cache
      directory `base` is fixed. */
  function StoreInto(base: string, url: string, present: set<string>, fetch: Fetch,
                     sha: Bytes -> string, writeOk: bool): (o: StoreOutcome)
    ensures var direct := JoinPath(base, UrlName(url));
      && (direct in present ==> o == StoreOutcome(direct, false, None))
      && (o.fetched <==> direct !in present)
    ensures fetch.NetworkError? ==> o.written.None? && (o.fetched ==> o.path == "")
    ensures o.fetched && fetch.Body? ==>
      var out := JoinPath(base, HashName(sha(fetch.data), UrlName(url)));
        && (o.path != "" ==> o.path == out)
        && (out in present ==> o.path == out && o.written.None?)
        && (out !in present ==> (o.path == "" <==> !writeOk))
        && (out !in present && writeOk ==> o.written == Some((out, fetch.data)))
    ensures o.written.Some? ==> fetch.Body? && o.written.value == (o.path, fetch.data) && o.path !in present
    ensures o.path != "" ==> o.path in After(present, o)
    ensures o.path == "" ==> o.written.None?
    ensures o.path != "" ==> StartsWith(o.path, base + "/")
  {
    var direct := JoinPath(base, UrlName(url));
    if direct in present then StoreOutcome(direct, false, None)
    else match fetch
      case NetworkError => StoreOutcome("", true, None)
      case Body(data) => StoreBody(base, UrlName(url), present, data, sha, writeOk)
  }

  /** Content deduplication: two URLs whose names carry the same extension
      and that deliver the same bytes end at the same path; once the first
      call has run, the second writes nothing. */
  lemma SameContentSamePath(base: string, url1: string, url2: string, present: set<string>,
                            data: Bytes, sha: Bytes -> string, writeOk: bool)
    requires AfterLast(UrlName(url1), '.') == AfterLast(UrlName(url2), '.')
    requires JoinPath(base, UrlName(url1)) !in present
    requires JoinPath(base, UrlName(url2)) !in present + {JoinPath(base, HashName(sha(data), UrlName(url1)))}
    ensures var o1 := StoreInto(base, url1, present, Body(data), sha, writeOk);
      var o2 := StoreInto(base, url2, After(present, o1), Body(data), sha, writeOk);
      o2.path == o1.path && o2.written.None?
  {
    var out := JoinPath(base, HashName(sha(data), UrlName(url1)));
    assert out == JoinPath(base, HashName(sha(data), UrlName(url2)));
    FreshStore(base, url1, present, data, sha, writeOk);
    var o1 := StoreInto(base, url1, present, Body(data), sha, writeOk);
    FreshStore(base, url2, After(present, o1), data, sha, writeOk);
  }

  /** A call whose URL name is not yet cached fetches the body and goes on
      to store it under its digest name. */
  lemma FreshStore(base: string, url: string, present: set<string>, data: Bytes,
                   sha: Bytes -> string, writeOk: bool)
    requires JoinPath(base, UrlName(url)) !in present
    ensures StoreInto(base, url, present, Body(data), sha, writeOk)
      == StoreBody(base, UrlName(url), present, data, sha, writeOk)
  {
  }

  /** `CacheManager::downloadAndCache`: stores under `~/.cache/wallpaper`,
      or under `~/.cache` when that directory could not be created. */
  function DownloadAndCache(home: string, mkpathOk: bool, url: string, present: set<string>,
                            fetch: Fetch, sha: Bytes -> string, writeOk: bool): (o: StoreOutcome)
    ensures mkpathOk && o.path != "" ==> StartsWith(o.path, CacheDirPath(home) + "/")
    ensures !mkpathOk && o.path != "" ==> StartsWith(o.path, home + "/.cache/")
  {
    assert home + "/.cache" + "/" == home + "/.cache/";
    StoreInto(if mkpathOk then CacheDirPath(home) else home + "/.cache", url, present, fetch, sha, writeOk)
  }

  /** The older `downloadAndCache`: stores under `wallpaper` inside the XDG
      cache location (falling back to `~/.cache` when that is empty), or in
      the cache location itself when the subdirectory is unavailable. */
  function LegacyDownloadAndCache(xdgCache: string, home: string, subdirOk: bool, url: string,
                                  present: set<string>, fetch: Fetch, sha: Bytes -> string,
                                  writeOk: bool): (o: StoreOutcome)
    ensures o.path != "" ==> StartsWith(o.path, LegacyDir(xdgCache, home, subdirOk) + "/")
  {
    StoreInto(LegacyDir(xdgCache, home, subdirOk), url, present, fetch, sha, writeOk)
  }

  /** The older variant's cache directory.  It is the current variant's
      directory when the XDG cache location is empty or `~/.cache` and the
      subdirectory is available. */
  function LegacyDir(xdgCache: string, home: string, subdirOk: bool): (d: string)
    ensures subdirOk ==> EndsWith(d, "/wallpaper") && |d| == |if xdgCache == "" then home + "/.cache" else xdgCache| + 10
    ensures !subdirOk ==> d == if xdgCache == "" then home + "/.cache" else xdgCache
    ensures subdirOk && (xdgCache == "" || xdgCache == home + "/.cache") ==> d == CacheDirPath(home)
  {
    assert home + "/.cache" + "/wallpaper" == home + CacheTail;
    var loc := if xdgCache == "" then home + "/.cache" else xdgCache;
    if subdirOk then loc + "/wallpaper" else loc
  }

  /** Both variants agree whenever they store into the same directory. */
  lemma VariantsAgree(xdgCache: string, home: string, subdirOk: bool, url: string, present: set<string>,
                      fetch: Fetch, sha: Bytes -> string, writeOk: bool)
    requires LegacyDir(xdgCache, home, subdirOk) == CacheDirPath(home)
    ensures DownloadAndCache(home, true, url, present, fetch, sha, writeOk)
         == LegacyDownloadAndCache(xdgCache, home, subdirOk, url, present, fetch, sha, writeOk)
  {
  }

  // ---- randomImagePath ----

  /** The glob suffixes of `randomImagePath`. */
  const GlobExtensions: seq<string> := [".png", ".jpg", ".jpeg", ".bmp", ".webp", ".gif"]

  /** A regular file is listed when it is not hidden (the listing does not
      ask for hidden files) and one `*.ext` filter matches it (QDir filters
      ignore case unless asked otherwise). */
  predicate GlobMatch(name: string) {
    !StartsWith(name, ".") && exists e :: e in GlobExtensions && EndsWithIgnoreCase(name, e)
  }

  /** `randomImagePath`, given the regular files of the cache directory:
      empty when the directory is missing or no file matches a glob; otherwise the path of one matching file, the
      `roll`-th modulo their number. */
  function RandomImagePath(home: string, dirExists: bool, files: seq<string>, roll: nat): (r: string)
    ensures r == "" <==> !dirExists || forall f :: f in files ==> !GlobMatch(f)
    ensures r != "" ==> exists f :: f in files && GlobMatch(f) && r == JoinPath(CacheDirPath(home), f)
  {
    var matches := Filter(files, GlobMatch);
    if !dirExists || |matches| == 0 then ""
    else
      var f := matches[roll % |matches|];
      assert f in matches;
      JoinPath(CacheDirPath(home), f)
  }
}
