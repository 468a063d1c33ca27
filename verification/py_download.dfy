/** The Python command-line downloader: reading the URL index and
    `download_image`, which reuses a known URL's file, deduplicates by
    content hash, and otherwise stores the image under a collision-free
    name.  The index file, the directory's entries (`present`, plain file
    names), the network, SHA-256 and the final move are parameters.  File
    names are relative to the destination directory; the empty name stands
    for the directory itself, which is what joining it with `""` yields. */
module PyDownload {
  import opened Wrappers
  import opened Strings
  import opened Json
  import opened CacheManager
  import Seqs

  /** What reading `index.json` found. */
  datatype IndexFile = Missing | Unparsable | Parsed(doc: Json)

  /** `load_index`: the decoded document, or an empty object when the file is
      missing or does not decode. */
  function LoadIndex(f: IndexFile): (j: Json)
    ensures f.Parsed? ==> j == f.doc
    ensures !f.Parsed? ==> j == JObj([])
  {
    if f.Parsed? then f.doc else JObj([])
  }

  /** The suggested file name: the last path segment without its query, or
      `wallpaper.jpg` when that is empty. */
  function SuggestedName(url: string): (name: string)
    ensures name != "" && '/' !in name && '?' !in name
    ensures var seg := AfterLast(url, '/');
      && (seg == "" || seg[0] == '?' ==> name == DefaultName)
      && (seg != "" && seg[0] != '?' ==>
            StartsWith(seg, name) && (|name| == |seg| || seg[|name|] == '?'))
  {
    var cut := BeforeFirst(AfterLast(url, '/'), '?');
    BeforeFirstEmpty(AfterLast(url, '/'), '?');
    if cut == "" then DefaultName else cut
  }

  // ---- pathlib's stem and suffix ----

  /** `PurePath.suffix`: from the last dot, unless that dot is the first or
      the last character (or there is none). */
  function Suffix(name: string): (s: string)
    ensures EndsWith(name, s)
    ensures s != "" ==> |s| >= 2 && s[0] == '.' && '.' !in s[1..] && |s| < |name|
    ensures s == "" ==> |name| <= 1 || name[|name| - 1] == '.' || '.' !in name[1..]
  {
    var tail := AfterLast(name, '.');
    if tail != "" && |tail| < |name| - 1 then name[|name| - |tail| - 1..] else ""
  }

  /** `PurePath.stem`: the name without its suffix. */
  function Stem(name: string): (s: string)
    ensures s + Suffix(name) == name
  {
    var suf := Suffix(name);
    var cut := |name| - |suf|;
    assert name[cut..] == suf;
    assert name[..cut] + name[cut..] == name;
    name[..cut]
  }

  /** The `k`-th name tried for `name`: the name itself, then
      `stem-k.suffix` for k = 1, 2, ... */
  function Candidate(name: string, k: nat): (c: string)
    ensures k == 0 ==> c == name
    ensures k > 0 ==> |c| == |Stem(name)| + 1 + |NatToString(k)| + |Suffix(name)| > |name|
  {
    if k == 0 then name else Stem(name) + "-" + NatToString(k) + Suffix(name)
  }

  /** A numbered candidate holds its counter's digits between the stem's
      dash and the suffix, and is longer than the name. */
  lemma CandidateDigits(name: string, k: nat)
    requires k > 0
    ensures var lo := |Stem(name)| + 1;
      |Candidate(name, k)| == lo + |NatToString(k)| + |Suffix(name)| > |name| &&
      Candidate(name, k)[lo..lo + |NatToString(k)|] == NatToString(k)
  {
    var head, digits, suf := Stem(name) + "-", NatToString(k), Suffix(name);
    assert Candidate(name, k) == head + digits + suf;
    Seqs.MiddleOf(head, digits, suf);
  }

  /** Distinct counters give distinct names. */
  lemma CandidateInjective(name: string, a: nat, b: nat)
    requires Candidate(name, a) == Candidate(name, b)
    ensures a == b
  {
    if a > 0 {
      CandidateDigits(name, a);
    }
    if b > 0 {
      CandidateDigits(name, b);
    }
    if a > 0 && b > 0 {
      NatToStringInjective(a, b);
    }
  }

  /** The first `n` candidates, as a set. */
  function CandidateSet(name: string, n: nat): (cs: set<string>)
    decreases n
  {
    if n == 0 then {} else CandidateSet(name, n - 1) + {Candidate(name, n - 1)}
  }

  lemma {:induction false} InCandidateSet(name: string, n: nat, c: string)
    requires c in CandidateSet(name, n)
    ensures exists j :: 0 <= j < n && Candidate(name, j) == c
    decreases n
  {
    if c != Candidate(name, n - 1) {
      InCandidateSet(name, n - 1, c);
    }
  }

  lemma {:induction false} CandidateSetSize(name: string, n: nat)
    ensures |CandidateSet(name, n)| == n
    decreases n
  {
    if n > 0 {
      CandidateSetSize(name, n - 1);
      var c := Candidate(name, n - 1);
      if c in CandidateSet(name, n - 1) {
        InCandidateSet(name, n - 1, c);
        var j :| 0 <= j < n - 1 && Candidate(name, j) == c;
        CandidateInjective(name, j, n - 1);
      }
    }
  }

  lemma {:induction false} CandidateSetTaken(name: string, present: set<string>, n: nat)
    requires forall j :: 0 <= j < n ==> Candidate(name, j) in present
    ensures CandidateSet(name, n) <= present
    decreases n
  {
    if n > 0 {
      CandidateSetTaken(name, present, n - 1);
    }
  }

  /** A directory cannot hold more taken candidates than it has entries. */
  lemma TakenBound(name: string, present: set<string>, n: nat)
    requires forall j :: 0 <= j < n ==> Candidate(name, j) in present
    ensures n <= |present|
  {
    CandidateSetSize(name, n);
    CandidateSetTaken(name, present, n);
    SubsetCardinality(CandidateSet(name, n), present);
  }

  lemma SubsetCardinality<T>(a: set<T>, b: set<T>)
    requires a <= b
    ensures |a| <= |b|
  {
    assert b == a + (b - a);
  }

  /** The collision loop: the counter of the first free candidate from `k`
      on.  It always stops, because the directory is finite. */
  function FirstFree(name: string, present: set<string>, k: nat): (r: nat)
    requires forall j :: 0 <= j < k ==> Candidate(name, j) in present
    ensures k <= r && Candidate(name, r) !in present
    ensures forall j :: 0 <= j < r ==> Candidate(name, j) in present
    decreases |present| - k
  {
    if Candidate(name, k) !in present then k
    else
      assert forall j :: 0 <= j < k + 1 ==> Candidate(name, j) in present by {
        forall j | 0 <= j < k + 1 ensures Candidate(name, j) in present {
          if j < k {
            assert Candidate(name, j) in present;
          }
        }
      }
      TakenBound(name, present, k + 1);
      FirstFree(name, present, k + 1)
  }

  // ---- download_image ----

  /** Why `download_image` raises: an index (or index entry) that is not an
      object, a file name that is not a string, a network error, or a
      failed move into place. */
  datatype Failure = NotADict | NotAString | NetworkFailure | MoveFailed

  /** A returned path (relative to the destination; "" is the directory),
      whether the network was used, the index written back, and the file
      moved into place. */
  datatype Saved = Saved(name: string, fetched: bool, written: Option<Members>, stored: Option<(string, Bytes)>)

  /** Whether joining the destination with `name` gives an existing path;
      `emptyExists` says whether the bare directory counts. */
  predicate Resolves(present: set<string>, name: string, emptyExists: bool) {
    if name == "" then emptyExists else name in present
  }

  /** The record stored for a URL. */
  function Record(filename: string, hash: string): Json {
    JObj([("filename", JStr(filename)), ("sha256", JStr(hash))])
  }

  /** The known-URL check: the entry's `filename` (default "") if it
      resolves, nothing when the URL is unknown or its file is gone, or the
      exception the lookup raises. */
  function ReuseKnown(ms: Members, url: string, present: set<string>, emptyExists: bool): (r: Result<Option<string>, Failure>)
    ensures !HasKey(ms, url) ==> r == Ok(None)
    ensures HasKey(ms, url) && !Get(ms, url).value.JObj? ==> r == Err(NotADict)
    ensures HasKey(ms, url) && Get(ms, url).value.JObj? ==>
      var fn := PyGet(Get(ms, url).value.members, "filename", JStr(""));
      && (!fn.JStr? ==> r == Err(NotAString))
      && (fn.JStr? ==> r.Ok? && (r.value.Some? <==> Resolves(present, fn.s, emptyExists)))
      && (r.Ok? && r.value.Some? ==> r.value.value == fn.s)
  {
    if !HasKey(ms, url) then Ok(None)
    else
      var entry := Get(ms, url).value;
      if !entry.JObj? then Err(NotADict)
      else
        var fn := PyGet(entry.members, "filename", JStr(""));
        if !fn.JStr? then Err(NotAString)
        else if Resolves(present, fn.s, emptyExists) then Ok(Some(fn.s))
        else Ok(None)
  }

  // ---- the hash scan ----

  /** The scan moves past entry `e`: it is an object and, when it records
      `hash`, its `filename` is a string naming no existing file. */
  predicate ScanPasses(e: Json, hash: string, present: set<string>, emptyExists: bool) {
    && e.JObj?
    && (PyGet(e.members, "sha256", JNull) == JStr(hash) ==>
          var fn := PyGet(e.members, "filename", JNull);
          fn.JStr? && !Resolves(present, fn.s, emptyExists))
  }

  /** The scan stops at entry `e` and returns `fn`. */
  predicate ScanHits(e: Json, hash: string, present: set<string>, emptyExists: bool, fn: string) {
    && e.JObj?
    && PyGet(e.members, "sha256", JNull) == JStr(hash)
    && PyGet(e.members, "filename", JNull) == JStr(fn)
    && Resolves(present, fn, emptyExists)
  }

  /** The exception the scan raises at entry `e`, if any: `entry.get` on a
      non-object, or joining a missing or non-string `filename`. */
  function ScanRaises(e: Json, hash: string): Option<Failure> {
    if !e.JObj? then Some(NotADict)
    else if PyGet(e.members, "sha256", JNull) == JStr(hash) && !PyGet(e.members, "filename", JNull).JStr? then Some(NotAString)
    else None
  }

  /** The scan moves past each of the first `n` entries of `ms`. */
  ghost predicate PassesBefore(ms: Members, n: int, hash: string, present: set<string>, emptyExists: bool) {
    forall j :: 0 <= j < n && j < |ms| ==> ScanPasses(ms[j].1, hash, present, emptyExists)
  }

  /** What the scan over `ms` must return: the file of the first entry it
      stops at, having moved past every earlier one; the exception of the
      first entry that raises, likewise; or nothing when it moves past all. */
  ghost predicate ScanOutcome(ms: Members, hash: string, present: set<string>, emptyExists: bool,
                              r: Result<Option<string>, Failure>) {
    && (r.Ok? && r.value.Some? ==>
          exists i :: 0 <= i < |ms| && ScanHits(ms[i].1, hash, present, emptyExists, r.value.value)
            && PassesBefore(ms, i, hash, present, emptyExists))
    && (r.Ok? && r.value.None? ==> PassesBefore(ms, |ms|, hash, present, emptyExists))
    && (r.Err? ==>
          exists i :: 0 <= i < |ms| && ScanRaises(ms[i].1, hash) == Some(r.error)
            && PassesBefore(ms, i, hash, present, emptyExists))
  }

  lemma PassesBeforeShift(ms: Members, n: int, hash: string, present: set<string>, emptyExists: bool)
    requires |ms| > 0 && ScanPasses(ms[0].1, hash, present, emptyExists)
    requires PassesBefore(ms[1..], n, hash, present, emptyExists)
    ensures PassesBefore(ms, n + 1, hash, present, emptyExists)
  {
    forall j | 0 <= j < n + 1 && j < |ms| ensures ScanPasses(ms[j].1, hash, present, emptyExists) {
      if j > 0 {
        assert ms[1..][j - 1] == ms[j];
      }
    }
  }

  /** An entry the scan moves past can be put in front of a scanned list. */
  lemma ScanShift(ms: Members, hash: string, present: set<string>, emptyExists: bool,
                  r: Result<Option<string>, Failure>)
    requires |ms| > 0 && ScanPasses(ms[0].1, hash, present, emptyExists)
    requires ScanOutcome(ms[1..], hash, present, emptyExists, r)
    ensures ScanOutcome(ms, hash, present, emptyExists, r)
  {
    var tail := ms[1..];
    if r.Ok? && r.value.Some? {
      var i :| 0 <= i < |tail| && ScanHits(tail[i].1, hash, present, emptyExists, r.value.value)
        && PassesBefore(tail, i, hash, present, emptyExists);
      assert tail[i] == ms[i + 1];
      PassesBeforeShift(ms, i, hash, present, emptyExists);
    } else if r.Ok? {
      PassesBeforeShift(ms, |tail|, hash, present, emptyExists);
    } else {
      var i :| 0 <= i < |tail| && ScanRaises(tail[i].1, hash) == Some(r.error)
        && PassesBefore(tail, i, hash, present, emptyExists);
      assert tail[i] == ms[i + 1];
      PassesBeforeShift(ms, i, hash, present, emptyExists);
    }
  }

  /** The hash scan, in index order: the first entry recording `hash` whose
      file resolves, unless an earlier entry raises. */
  function ScanHash(ms: Members, hash: string, present: set<string>, emptyExists: bool): (r: Result<Option<string>, Failure>)
    ensures ScanOutcome(ms, hash, present, emptyExists, r)
    decreases |ms|
  {
    if |ms| == 0 then Ok(None)
    else
      var e := ms[0].1;
      if ScanRaises(e, hash).Some? then
        assert ScanRaises(ms[0].1, hash) == Some(ScanRaises(e, hash).value);
        Err(ScanRaises(e, hash).value)
      else if ScanPasses(e, hash, present, emptyExists) then
        var rest := ScanHash(ms[1..], hash, present, emptyExists);
        ScanShift(ms, hash, present, emptyExists, rest);
        rest
      else
        var fn := PyGet(e.members, "filename", JNull).s;
        assert ScanHits(ms[0].1, hash, present, emptyExists, fn);
        Ok(Some(fn))
  }

  /** `download_image`, with the treatment of an empty file name left open. */
  function DownloadWith(emptyExists: bool, url: string, file: IndexFile, present: set<string>,
                        fetch: Fetch, sha: Bytes -> string, moveOk: bool): (r: Result<Saved, Failure>)
    ensures !LoadIndex(file).JObj? ==> r == Err(NotADict)
    ensures LoadIndex(file).JObj? ==>
      var known := ReuseKnown(LoadIndex(file).members, url, present, emptyExists);
      && (known.Err? ==> r == Err(known.error))
      && (known.Ok? && known.value.Some? ==> r == Ok(Saved(known.value.value, false, None, None)))
      && (known == Ok(None) && fetch.NetworkError? ==> r == Err(NetworkFailure))
      && (known == Ok(None) && fetch.Body? ==>
            var scan := ScanHash(LoadIndex(file).members, sha(fetch.data), present, emptyExists);
            && (scan.Err? ==> r == Err(scan.error))
            && (scan.Ok? ==> (r.Ok? <==> scan.value.Some? || moveOk))
            && (scan.Ok? && scan.value.Some? ==>
                  r == Ok(Saved(scan.value.value, true,
                                Some(Set(LoadIndex(file).members, url, Record(scan.value.value, sha(fetch.data)))), None)))
            && (r.Ok? ==> r.value.fetched)
            && (r.Ok? && r.value.stored.None? ==> scan == Ok(Some(r.value.name))))
    ensures r.Ok? ==> Resolves(present, r.value.name, emptyExists) || (fetch.Body? && r.value.stored == Some((r.value.name, fetch.data)))
    ensures r.Ok? && !r.value.fetched ==> r.value.written.None? && r.value.stored.None?
    ensures r.Ok? && r.value.fetched ==>
      && fetch.Body? && r.value.written.Some?
      && Set(LoadIndex(file).members, url, Record(r.value.name, sha(fetch.data))) == r.value.written.value
    ensures r.Ok? && r.value.stored.Some? ==>
      && r.value.name !in present
      && r.value.name == Candidate(SuggestedName(url), FirstFree(SuggestedName(url), present, 0))
  {
    var idx := LoadIndex(file);
    if !idx.JObj? then Err(NotADict)
    else
      var ms := idx.members;
      match ReuseKnown(ms, url, present, emptyExists)
      case Err(e) => Err(e)
      case Ok(Some(fn)) => Ok(Saved(fn, false, None, None))
      case Ok(None) =>
        var name := SuggestedName(url);
        match fetch
        case NetworkError => Err(NetworkFailure)
        case Body(data) =>
          var hash := sha(data);
          match ScanHash(ms, hash, present, emptyExists)
          case Err(e) => Err(e)
          case Ok(Some(fn)) => Ok(Saved(fn, true, Some(Set(ms, url, Record(fn, hash))), None))
          case Ok(None) =>
            var k := FirstFree(name, present, 0);
            var final := Candidate(name, k);
            if !moveOk then Err(MoveFailed)
            else Ok(Saved(final, true, Some(Set(ms, url, Record(final, hash))), Some((final, data))))
  }

  /** `download_image` as written: joining the directory with an empty
      `filename` yields the directory, which exists. */
  function DownloadImageAsWritten(url: string, file: IndexFile, present: set<string>,
                                  fetch: Fetch, sha: Bytes -> string, moveOk: bool): Result<Saved, Failure> {
    DownloadWith(true, url, file, present, fetch, sha, moveOk)
  }

  /** `download_image` with an entry's missing or empty `filename` treated
      as "no file", as the `""` default evidently intends. */
  function DownloadImage(url: string, file: IndexFile, present: set<string>,
                         fetch: Fetch, sha: Bytes -> string, moveOk: bool): (r: Result<Saved, Failure>)
    ensures r.Ok? ==> r.value.name != ""
    ensures r.Ok? ==> r.value.name in present || (fetch.Body? && r.value.stored == Some((r.value.name, fetch.data)))
    ensures LoadIndex(file).JObj? ==>
      var known := ReuseKnown(LoadIndex(file).members, url, present, false);
      && (known.Ok? && known.value.Some? ==> r == Ok(Saved(known.value.value, false, None, None)))
      && (known == Ok(None) && fetch.Body? && moveOk
            && ScanHash(LoadIndex(file).members, sha(fetch.data), present, false).Ok?
          ==> r.Ok? && r.value.fetched)
      && (known == Ok(None) && fetch.Body? ==>
            var scan := ScanHash(LoadIndex(file).members, sha(fetch.data), present, false);
            scan.Ok? && scan.value.Some? ==>
              r == Ok(Saved(scan.value.value, true,
                            Some(Set(LoadIndex(file).members, url, Record(scan.value.value, sha(fetch.data)))), None)))
  {
    DownloadWith(false, url, file, present, fetch, sha, moveOk)
  }

  /** The directory's entries after a successful call. */
  function PresentAfter(present: set<string>, s: Saved): set<string> {
    if s.stored.Some? then present + {s.name} else present
  }

  /** Repeating a successful download of the same URL, against the index
      and directory it left behind, reuses the file without the network. */
  lemma DownloadAgainReuses(url: string, file: IndexFile, present: set<string>, fetch: Fetch,
                            sha: Bytes -> string, moveOk: bool, fetch2: Fetch, moveOk2: bool)
    requires DownloadImage(url, file, present, fetch, sha, moveOk).Ok?
    ensures var s := DownloadImage(url, file, present, fetch, sha, moveOk).value;
      var file2 := if s.written.Some? then Parsed(JObj(s.written.value)) else file;
      DownloadImage(url, file2, PresentAfter(present, s), fetch2, sha, moveOk2)
        == Ok(Saved(s.name, false, None, None))
  {
    var s := DownloadImage(url, file, present, fetch, sha, moveOk).value;
    if s.written.Some? {
      var ms2 := s.written.value;
      GetSet(LoadIndex(file).members, url, Record(s.name, sha(fetch.data)), url);
      assert Get(ms2, url) == Some(Record(s.name, sha(fetch.data)));
      assert PyGet(Record(s.name, sha(fetch.data)).members, "filename", JStr("")) == JStr(s.name);
    }
  }

  /** The as-written behaviour returns the directory itself for a known URL
      whose entry has no `filename`; the corrected one downloads instead. */
  lemma EmptyFilenameReturnsDirectory(sha: Bytes -> string)
    ensures var file := Parsed(JObj([("http://x/a.jpg", JObj([("sha256", JStr("00"))]))]));
      && DownloadImageAsWritten("http://x/a.jpg", file, {}, NetworkError, sha, true) == Ok(Saved("", false, None, None))
      && DownloadImage("http://x/a.jpg", file, {}, NetworkError, sha, true) == Err(NetworkFailure)
  {
    var entry: Members := [("sha256", JStr("00"))];
    assert Get(entry, "filename") == None;
    var ms: Members := [("http://x/a.jpg", JObj(entry))];
    assert Get(ms, "http://x/a.jpg") == Some(JObj(entry));
  }
}
