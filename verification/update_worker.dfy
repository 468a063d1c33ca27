/** The background update job: for each followed subreddit it asks the
    fetcher for recent image links, hands each link to the cache, and
    reports every image that landed in the cache, then reports that it has
    finished.  The job is modelled by the sequence of signals it emits. */
module UpdateWorker {
  import opened Seqs

  datatype Event =
    | Error(message: string)
    | ImageCached(local: string, subreddit: string, url: string)
    | Finished

  const MissingCollaborator := "Missing fetcher or cache manager"

  /** The fetcher's answer for the `i`-th subreddit: the image links, in its
      order (it was asked for the 10 most recent posts). */
  type Fetcher = (nat, string) -> seq<string>

  /** The cache's answer to the `j`-th download: the local path, or empty on
      failure.  The call number stands for the cache's state at that time. */
  type Downloader = (nat, string) -> string

  /** The downloads made for one subreddit, as (subreddit, link) pairs. */
  function Batch(sub: string, urls: seq<string>): (b: seq<(string, string)>)
    ensures |b| == |urls|
    decreases |urls|
  {
    if |urls| == 0 then []
    else
      var n := |urls| - 1;
      Batch(sub, urls[..n]) + [(sub, urls[n])]
  }

  /** The `k`-th download of a batch is the subreddit with its `k`-th link. */
  lemma {:induction false} BatchAt(sub: string, urls: seq<string>)
    ensures forall k :: 0 <= k < |urls| ==> Batch(sub, urls)[k] == (sub, urls[k])
    decreases |urls|
  {
    if |urls| > 0 {
      var n := |urls| - 1;
      BatchAt(sub, urls[..n]);
      forall k | 0 <= k < n ensures Batch(sub, urls)[k] == (sub, urls[k]) {
        assert urls[..n][k] == urls[k];
      }
    }
  }

  /** One batch per subreddit, in list order. */
  function Batches(subs: seq<string>, fetch: Fetcher): (bs: seq<seq<(string, string)>>)
    ensures |bs| == |subs|
    ensures forall i :: 0 <= i < |subs| ==> bs[i] == Batch(subs[i], fetch(i, subs[i]))
  {
    seq(|subs|, i requires 0 <= i < |subs| => Batch(subs[i], fetch(i, subs[i])))
  }

  /** Every download the job makes, in the order it makes them. */
  function Calls(subs: seq<string>, fetch: Fetcher): (r: seq<(string, string)>)
    ensures forall c :: c in r ==> exists i :: 0 <= i < |subs| && c.0 == subs[i] && c.1 in fetch(i, subs[i])
    decreases |subs|
  {
    if |subs| == 0 then []
    else
      var n := |subs| - 1;
      var before := Calls(subs[..n], fetch);
      var batch := Batch(subs[n], fetch(n, subs[n]));
      BatchAt(subs[n], fetch(n, subs[n]));
      assert forall c :: c in before ==> exists i :: 0 <= i < |subs| && c.0 == subs[i] && c.1 in fetch(i, subs[i]) by {
        forall c | c in before ensures exists i :: 0 <= i < |subs| && c.0 == subs[i] && c.1 in fetch(i, subs[i]) {
          var i :| 0 <= i < n && c.0 == subs[..n][i] && c.1 in fetch(i, subs[..n][i]);
          assert subs[..n][i] == subs[i];
        }
      }
      assert forall c :: c in batch ==> c.0 == subs[n] && c.1 in fetch(n, subs[n]);
      before + batch
  }

  lemma BatchesSnoc(subs: seq<string>, fetch: Fetcher)
    requires |subs| > 0
    ensures var n := |subs| - 1;
      Batches(subs, fetch) == Batches(subs[..n], fetch) + [Batch(subs[n], fetch(n, subs[n]))]
  {
    var n := |subs| - 1;
    var a, b := Batches(subs, fetch), Batches(subs[..n], fetch) + [Batch(subs[n], fetch(n, subs[n]))];
    forall k | 0 <= k < |a| ensures a[k] == b[k] {
      if k < n {
        assert subs[..n][k] == subs[k];
      }
    }
  }

  /** The downloads are the subreddits' batches laid end to end. */
  lemma {:induction false} CallsAreBatches(subs: seq<string>, fetch: Fetcher)
    ensures Calls(subs, fetch) == Flatten(Batches(subs, fetch))
    decreases |subs|
  {
    if |subs| > 0 {
      var n := |subs| - 1;
      CallsAreBatches(subs[..n], fetch);
      BatchesSnoc(subs, fetch);
      FlattenSnoc(Batches(subs[..n], fetch), Batch(subs[n], fetch(n, subs[n])));
    }
  }

  /** The signal for the `j`-th download, if it landed in the cache. */
  function Report(j: nat, c: (string, string), download: Downloader): (r: seq<Event>)
    ensures |r| <= 1
  {
    var local := download(j, c.1);
    if local != "" then [ImageCached(local, c.0, c.1)] else []
  }

  /** The `imageCached` signals for a run of downloads: one for each download
      that returned a path, in download order. */
  function Announce(calls: seq<(string, string)>, download: Downloader): (r: seq<Event>)
    ensures |r| <= |calls|
    decreases |calls|
  {
    if |calls| == 0 then []
    else
      var n := |calls| - 1;
      Announce(calls[..n], download) + Report(n, calls[n], download)
  }

  /** Only downloads that returned a path are reported, each with its own
      subreddit and link. */
  lemma {:induction false} AnnounceSound(calls: seq<(string, string)>, download: Downloader)
    ensures forall e :: e in Announce(calls, download) ==>
      e.ImageCached? && e.local != "" && (e.subreddit, e.url) in calls
    decreases |calls|
  {
    if |calls| > 0 {
      var n := |calls| - 1;
      AnnounceSound(calls[..n], download);
      assert forall c :: c in calls[..n] ==> c in calls;
    }
  }

  /** Every download that returned a path is reported. */
  lemma {:induction false} AnnounceComplete(calls: seq<(string, string)>, download: Downloader, j: int)
    requires 0 <= j < |calls| && download(j, calls[j].1) != ""
    ensures ImageCached(download(j, calls[j].1), calls[j].0, calls[j].1) in Announce(calls, download)
    decreases |calls|
  {
    var n := |calls| - 1;
    if j < n {
      assert calls[..n][j] == calls[j];
      AnnounceComplete(calls[..n], download, j);
    }
  }

  /** The signals `start` emits; `ready` says both the fetcher and the cache
      are present. */
  function Trace(ready: bool, subs: seq<string>, fetch: Fetcher, download: Downloader): (r: seq<Event>)
    ensures |r| > 0 && r[|r| - 1] == Finished
    ensures forall i :: 0 <= i < |r| - 1 ==> !r[i].Finished?
    ensures !ready ==> r == [Error(MissingCollaborator), Finished]
    ensures ready ==> forall e :: e in r ==> !e.Error?
    ensures ready ==> forall e :: e in r && e.ImageCached? ==> e.local != "" && (e.subreddit, e.url) in Calls(subs, fetch)
  {
    if !ready then [Error(MissingCollaborator), Finished]
    else
      var announced := Announce(Calls(subs, fetch), download);
      AnnounceSound(Calls(subs, fetch), download);
      assert forall i :: 0 <= i < |announced| ==> announced[i] in announced;
      announced + [Finished]
  }

  /** Every subreddit's links are downloaded, and every download that lands
      in the cache is reported with its subreddit and link. */
  lemma EveryCachedImageReported(subs: seq<string>, fetch: Fetcher, download: Downloader, j: int)
    requires 0 <= j < |Calls(subs, fetch)|
    requires download(j, Calls(subs, fetch)[j].1) != ""
    ensures var c := Calls(subs, fetch)[j];
      ImageCached(download(j, c.1), c.0, c.1) in Trace(true, subs, fetch, download)
  {
    AnnounceComplete(Calls(subs, fetch), download, j);
  }

  lemma AnnounceSnoc(calls: seq<(string, string)>, c: (string, string), download: Downloader)
    ensures Announce(calls + [c], download) == Announce(calls, download) + Report(|calls|, c, download)
  {
    assert (calls + [c])[..|calls|] == calls;
  }

  lemma CallsSnoc(subs: seq<string>, fetch: Fetcher, i: int)
    requires 0 <= i < |subs|
    ensures Calls(subs[..i + 1], fetch) == Calls(subs[..i], fetch) + Batch(subs[i], fetch(i, subs[i]))
  {
    assert subs[..i + 1][..i] == subs[..i];
  }

  lemma BatchSnoc(sub: string, urls: seq<string>, j: int)
    requires 0 <= j < |urls|
    ensures Batch(sub, urls[..j + 1]) == Batch(sub, urls[..j]) + [(sub, urls[j])]
  {
    assert urls[..j + 1][..j] == urls[..j];
  }

  lemma BatchIndex(sub: string, urls: seq<string>, j: int)
    requires 0 <= j < |urls|
    ensures Batch(sub, urls)[j] == (sub, urls[j])
  {
    BatchAt(sub, urls);
  }

  /** The inner loop of `start`: downloads one subreddit's links, extending
      the signals emitted so far. */
  method DownloadBatch(sub: string, urls: seq<string>, download: Downloader,
                       ghost before: seq<(string, string)>, made0: nat, trace0: seq<Event>)
    returns (made: nat, trace: seq<Event>)
    requires made0 == |before| && trace0 == Announce(before, download)
    ensures made == |before| + |urls|
    ensures trace == Announce(before + Batch(sub, urls), download)
  {
    made, trace := made0, trace0;
    ghost var batch := Batch(sub, urls);
    assert before + batch[..0] == before;
    for j := 0 to |urls|
      invariant made == |before| + j
      invariant trace == Announce(before + batch[..j], download)
    {
      var local := download(made, urls[j]);
      ghost var prev := trace;
      if local != "" {
        trace := trace + [ImageCached(local, sub, urls[j])];
      }
      BatchIndex(sub, urls, j);
      assert trace == prev + Report(made, batch[j], download);
      SnocTake(before, batch, j);
      AnnounceSnoc(before + batch[..j], batch[j], download);
      made := made + 1;
    }
    assert batch[..|urls|] == batch;
  }

  /** `UpdateWorker::start`. */
  method Start(hasFetcher: bool, hasCache: bool, subs: seq<string>, fetch: Fetcher, download: Downloader)
    returns (trace: seq<Event>)
    ensures trace == Trace(hasFetcher && hasCache, subs, fetch, download)
  {
    if !hasFetcher || !hasCache {
      return [Error(MissingCollaborator), Finished];
    }
    trace := [];
    var made := 0;
    for i := 0 to |subs|
      invariant made == |Calls(subs[..i], fetch)|
      invariant trace == Announce(Calls(subs[..i], fetch), download)
    {
      CallsSnoc(subs, fetch, i);
      made, trace := DownloadBatch(subs[i], fetch(i, subs[i]), download, Calls(subs[..i], fetch), made, trace);
    }
    assert subs[..|subs|] == subs;
    trace := trace + [Finished];
  }
}
