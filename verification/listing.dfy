/** Picking image URLs out of a subreddit's `new.json` listing, in the three
    places the repository does it: the Python extractor, the C++
    `pickImageUrlFromListing` of the older application, and
    `RedditFetcher::fetchRecentImageUrls`.  The network and the random
    generator are parameters; a listing is a decoded JSON value. */
module Listing {
  import opened Wrappers
  import opened Strings
  import opened Json
  import opened Seqs

  // ---- the `&amp;` escape of gallery URLs ----

  /** `s.replace("&amp;", "&")`: left to right, without overlaps. */
  function UnescapeAmp(s: string): (r: string)
    ensures |r| <= |s|
    ensures !Contains(s, "&amp;") ==> r == s
    decreases |s|
  {
    if |s| == 0 then ""
    else if StartsWith(s, "&amp;") then
      assert OccursAt(s, "&amp;", 0);
      "&" + UnescapeAmp(s[5..])
    else
      var rest := UnescapeAmp(s[1..]);
      assert !Contains(s, "&amp;") ==> !Contains(s[1..], "&amp;") by {
        if Contains(s[1..], "&amp;") {
          var i :| 0 <= i <= |s[1..]| - 5 && OccursAt(s[1..], "&amp;", i);
          assert OccursAt(s, "&amp;", i + 1);
        }
      }
      [s[0]] + rest
  }

  /** The escape Reddit applies: every `&` becomes `&amp;`. */
  function EscapeAmp(s: string): (r: string)
    ensures |r| >= |s|
    decreases |s|
  {
    if |s| == 0 then ""
    else if s[0] == '&' then "&amp;" + EscapeAmp(s[1..])
    else [s[0]] + EscapeAmp(s[1..])
  }

  /** Unescaping undoes Reddit's escape. */
  lemma {:induction false} UnescapeEscape(s: string)
    ensures UnescapeAmp(EscapeAmp(s)) == s
    decreases |s|
  {
    if |s| > 0 {
      UnescapeEscape(s[1..]);
      var e := EscapeAmp(s);
      if s[0] == '&' {
        assert e[5..] == EscapeAmp(s[1..]);
        assert StartsWith(e, "&amp;");
      } else {
        assert !StartsWith(e, "&amp;") by { assert e[0] == s[0]; }
        assert e[1..] == EscapeAmp(s[1..]);
      }
      assert s == [s[0]] + s[1..];
    }
  }

  /** The unescape is not idempotent: a doubly escaped ampersand keeps one
      escape. */
  lemma UnescapeOnceOnly()
    ensures UnescapeAmp("&amp;amp;") == "&amp;"
  {
    var s := "&amp;amp;";
    assert StartsWith(s, "&amp;");
    assert s[5..] == "amp;";
    assert !StartsWith("amp;", "&amp;");
    assert !StartsWith("mp;", "&amp;");
    assert !StartsWith("p;", "&amp;");
    assert !StartsWith(";", "&amp;");
    assert "amp;"[1..] == "mp;" && "mp;"[1..] == "p;" && "p;"[1..] == ";" && ";"[1..] == "";
  }

  // ---- the Python extractor ----

  /** The extensions the Python extractor recognises. */
  const PyExtensions: seq<string> := [".jpg", ".jpeg", ".png", ".gif", ".webp"]

  /** `any(url.lower().endswith(ext) for ext in ...)`. */
  predicate LowerEndsWithAny(url: string, exts: seq<string>) {
    exists e :: e in exts && EndsWith(ToLower(url), e)
  }

  /** The URL of one non-gallery post, as the Python extractor classifies
      it: an extensionless Imgur page gets `.jpg` appended, direct images
      and the two image hosts are kept, anything else is dropped. */
  function ClassifyPy(url: string): (r: Option<string>)
    ensures r.Some? ==> r.value == url || r.value == url + ".jpg"
    ensures r.Some? ==> LowerEndsWithAny(r.value, PyExtensions) || Contains(url, "i.redd.it") || Contains(url, "i.imgur.com")
    ensures r.None? <==>
      !LowerEndsWithAny(url, PyExtensions) && !Contains(url, "imgur.com/")
      && !Contains(url, "i.redd.it") && !Contains(url, "i.imgur.com")
    ensures Contains(url, "imgur.com/") && !LowerEndsWithAny(url, PyExtensions) ==> r == Some(url + ".jpg")
    ensures LowerEndsWithAny(url, PyExtensions) ==> r == Some(url)
    ensures r.Some? && !(Contains(url, "imgur.com/") && !LowerEndsWithAny(url, PyExtensions)) ==> r.value == url
  {
    if Contains(url, "imgur.com/") && !LowerEndsWithAny(url, PyExtensions) then
      JpgSuffix(url);
      Some(url + ".jpg")
    else if LowerEndsWithAny(url, PyExtensions) then Some(url)
    else if Contains(url, "i.redd.it") || Contains(url, "i.imgur.com") then Some(url)
    else None
  }

  /** Appending `.jpg` makes a URL end with an image extension. */
  lemma JpgSuffix(url: string)
    ensures LowerEndsWithAny(url + ".jpg", PyExtensions)
    ensures EndsWith(ToLower(url + ".jpg"), ".jpg")
  {
    var low := ToLower(url + ".jpg");
    assert low[|low| - 4..] == ".jpg";
    assert ".jpg" in PyExtensions;
  }

  /** What Python's `raise` stands for: the payload does not have the shape
      the extractor indexes into (a `.get` on a non-dict, iterating a
      number, `.replace` on a non-string). */
  datatype Raised = Raised

  /** `x.get(key, default)`, which raises unless `x` is a dict. */
  function DictGet(x: Json, key: string, default: Json): (r: Result<Json, Raised>)
    ensures r.Ok? <==> x.JObj?
    ensures r.Ok? ==> r.value == PyGet(x.members, key, default)
  {
    if x.JObj? then Ok(PyGet(x.members, key, default)) else Err(Raised)
  }

  /** The values a Python `for` loop visits: a list's items, a dict's keys,
      a string's characters; other values raise. */
  function PyIter(x: Json): (r: Result<seq<Json>, Raised>)
    ensures x.JArr? ==> r == Ok(x.items)
    ensures r.Ok? ==> |r.value| == (match x case JArr(items) => |items| case JObj(ms) => |ms| case JStr(s) => |s| case _ => 0)
    ensures r.Err? <==> !(x.JArr? || x.JObj? || x.JStr?)
  {
    match x
    case JArr(items) => Ok(items)
    case JObj(ms) => Ok(seq(|ms|, i requires 0 <= i < |ms| => JStr(ms[i].0)))
    case JStr(s) => Ok(seq(|s|, i requires 0 <= i < |s| => JStr([s[i]])))
    case _ => Err(Raised)
  }

  /** The `s.u` string of a media entry, when it has a truthy one. */
  function GalleryUrl(v: Json): Option<string> {
    if !v.JObj? then None
    else
      var s := PyGet(v.members, "s", JObj([]));
      if !s.JObj? then None
      else
        var u := PyGet(s.members, "u", JNull);
        if u.JStr? && u.s != "" then Some(u.s) else None
  }

  /** A media entry the gallery loop steps over: a dict whose `s` is a dict
      with a falsy `u`.  Such an entry has no gallery URL. */
  predicate GalleryPasses(v: Json)
    ensures GalleryPasses(v) ==> GalleryUrl(v).None?
  {
    v.JObj? && PyGet(v.members, "s", JObj([])).JObj?
    && !Truthy(PyGet(PyGet(v.members, "s", JObj([])).members, "u", JNull))
  }

  /** A media entry on which the loop raises: not a dict, an `s` that is not
      a dict, or a truthy `u` that is not a string. */
  predicate GalleryRaises(v: Json) {
    || !v.JObj?
    || !PyGet(v.members, "s", JObj([])).JObj?
    || (var u := PyGet(PyGet(v.members, "s", JObj([])).members, "u", JNull); Truthy(u) && !u.JStr?)
  }

  /** Every entry before position `n` is stepped over. */
  ghost predicate GalleryPassesBefore(media: Members, n: int) {
    forall j :: 0 <= j < n && j < |media| ==> GalleryPasses(media[j].1)
  }

  /** What the gallery loop yields, in terms of the first entry it does not
      step over: that entry's unescaped URL, or the exception it raises;
      nothing when every entry is stepped over. */
  ghost predicate GalleryOutcome(media: Members, r: Result<seq<string>, Raised>) {
    && (r.Ok? ==> |r.value| <= 1)
    && (r == Ok([]) <==> GalleryPassesBefore(media, |media|))
    && (r.Ok? && |r.value| == 1 ==>
          exists i :: 0 <= i < |media| && GalleryPassesBefore(media, i)
            && GalleryUrl(media[i].1).Some? && r.value[0] == UnescapeAmp(GalleryUrl(media[i].1).value))
    && (r.Err? ==>
          exists i :: 0 <= i < |media| && GalleryPassesBefore(media, i) && GalleryRaises(media[i].1))
  }

  lemma GalleryPassesShift(media: Members, n: int)
    requires |media| > 0 && GalleryPasses(media[0].1)
    ensures GalleryPassesBefore(media[1..], n) <==> GalleryPassesBefore(media, n + 1)
  {
    if GalleryPassesBefore(media[1..], n) {
      forall j | 0 <= j < n + 1 && j < |media| ensures GalleryPasses(media[j].1) {
        if j > 0 {
          assert media[j] == media[1..][j - 1];
        }
      }
    }
    if GalleryPassesBefore(media, n + 1) {
      forall j | 0 <= j < n && j < |media| - 1 ensures GalleryPasses(media[1..][j].1) {
        assert media[1..][j] == media[j + 1];
      }
    }
  }

  /** Stepping over the first entry leaves the outcome of the rest. */
  lemma GalleryShift(media: Members, r: Result<seq<string>, Raised>)
    requires |media| > 0 && GalleryPasses(media[0].1)
    requires GalleryOutcome(media[1..], r)
    ensures GalleryOutcome(media, r)
  {
    var tail := media[1..];
    GalleryPassesShift(media, |tail|);
    if r.Ok? && |r.value| == 1 {
      var i :| 0 <= i < |tail| && GalleryPassesBefore(tail, i)
        && GalleryUrl(tail[i].1).Some? && r.value[0] == UnescapeAmp(GalleryUrl(tail[i].1).value);
      assert tail[i] == media[i + 1];
      GalleryPassesShift(media, i);
    } else if r.Err? {
      var i :| 0 <= i < |tail| && GalleryPassesBefore(tail, i) && GalleryRaises(tail[i].1);
      assert tail[i] == media[i + 1];
      GalleryPassesShift(media, i);
    }
  }

  /** The gallery branch: the first media entry whose `s.u` is truthy,
      unescaped; nothing when there is none. */
  function GalleryFirst(media: Members): (r: Result<seq<string>, Raised>)
    ensures GalleryOutcome(media, r)
    decreases |media|
  {
    if |media| == 0 then Ok([])
    else
      var v := media[0].1;
      match DictGet(v, "s", JObj([]))
      case Err(e) => Err(e)
      case Ok(s) =>
        match DictGet(s, "u", JNull)
        case Err(e) => Err(e)
        case Ok(u) =>
          if !Truthy(u) then
            var rest := GalleryFirst(media[1..]);
            GalleryShift(media, rest);
            rest
          else if u.JStr? then
            assert GalleryPassesBefore(media, 0) && GalleryUrl(v) == Some(u.s);
            Ok([UnescapeAmp(u.s)])
          else
            assert GalleryPassesBefore(media, 0) && GalleryRaises(v);
            Err(Raised)
  }

  /** `data.get("url_overridden_by_dest") or data.get("url")`. */
  function PyPostUrl(data: Members): (url: Json)
    ensures url == PyGet(data, "url_overridden_by_dest", JNull) || url == PyGet(data, "url", JNull)
    ensures Truthy(url) <==> Truthy(PyGet(data, "url_overridden_by_dest", JNull)) || Truthy(PyGet(data, "url", JNull))
  {
    var over := PyGet(data, "url_overridden_by_dest", JNull);
    if Truthy(over) then over else PyGet(data, "url", JNull)
  }

  /** A classification as a list of at most one URL. */
  function OptionList(o: Option<string>): (r: seq<string>)
    ensures |r| <= 1 && (r == [] <==> o.None?)
    ensures o.Some? ==> r == [o.value]
  {
    match o
    case None => []
    case Some(u) => [u]
  }

  /** The URLs one child of the listing contributes: nothing when it has no
      truthy URL, the first gallery item for a gallery, else what the
      classifier makes of the URL. */
  function ChildUrls(child: Json): (r: Result<seq<string>, Raised>)
    ensures r.Ok? ==> |r.value| <= 1
    ensures !child.JObj? || !PyGet(child.members, "data", JObj([])).JObj? ==> r == Err(Raised)
  {
    match DictGet(child, "data", JObj([]))
    case Err(e) => Err(e)
    case Ok(data) =>
      if !data.JObj? then Err(Raised)
      else
      var url := PyPostUrl(data.members);
      if !Truthy(url) then Ok([])
      else if Truthy(PyGet(data.members, "is_gallery", JNull)) then
        var media := PyGet(data.members, "media_metadata", JObj([]));
        if !media.JObj? then Err(Raised) else GalleryFirst(media.members)
      else if !url.JStr? then Err(Raised)
      else Ok(OptionList(ClassifyPy(url.s)))
  }

  /** The three cases of one child: no truthy URL contributes nothing; a
      gallery contributes its first media item (and raises when
      `media_metadata` is not a dict); any other post contributes what the
      classifier makes of its URL (and raises when the URL is not a
      string). */
  lemma ChildUrlsCases(child: Json)
    requires child.JObj? && PyGet(child.members, "data", JObj([])).JObj?
    ensures var r := ChildUrls(child);
      var data := PyGet(child.members, "data", JObj([])).members;
      var url := PyPostUrl(data);
      var media := PyGet(data, "media_metadata", JObj([]));
      && (!Truthy(url) ==> r == Ok([]))
      && (Truthy(url) && Truthy(PyGet(data, "is_gallery", JNull)) ==>
            (media.JObj? ==> r == GalleryFirst(media.members)) && (!media.JObj? ==> r == Err(Raised)))
      && (Truthy(url) && !Truthy(PyGet(data, "is_gallery", JNull)) ==>
            (url.JStr? ==> r == Ok(OptionList(ClassifyPy(url.s)))) && (!url.JStr? ==> r == Err(Raised)))
  {
  }

  /** The contributions of the children, concatenated in order. */
  function ChildrenUrls(children: seq<Json>): (r: Result<seq<string>, Raised>)
    ensures r.Ok? ==> |r.value| <= |children|
    ensures r.Ok? <==> forall i :: 0 <= i < |children| ==> ChildUrls(children[i]).Ok?
    decreases |children|
  {
    if |children| == 0 then Ok([])
    else
      match ChildUrls(children[0])
      case Err(e) => Err(e)
      case Ok(first) =>
        var rest := ChildrenUrls(children[1..]);
        assert forall i :: 1 <= i < |children| ==> children[i] == children[1..][i - 1];
        match rest
        case Err(e) => Err(e)
        case Ok(more) => Ok(first + more)
  }

  /** `extract_image_urls_from_listing`. */
  function ExtractImageUrls(listing: Json): (r: Result<seq<string>, Raised>)
    ensures !listing.JObj? ==> r.Err?
    ensures listing.JObj? && !HasKey(listing.members, "data") ==> r == Ok([])
  {
    match DictGet(listing, "data", JObj([]))
    case Err(e) => Err(e)
    case Ok(data) =>
      match DictGet(data, "children", JArr([]))
      case Err(e) => Err(e)
      case Ok(children) =>
        match PyIter(children)
        case Err(e) => Err(e)
        case Ok(items) => ChildrenUrls(items)
  }

  /** Any listing: a non-dict listing or `data` raises, `children` that
      cannot be iterated raise, and otherwise the URLs are those of the
      iterated children, in their order. */
  lemma ExtractCases(listing: Json)
    ensures !listing.JObj? ==> ExtractImageUrls(listing) == Err(Raised)
    ensures listing.JObj? ==>
      var data := PyGet(listing.members, "data", JObj([]));
      && (!data.JObj? ==> ExtractImageUrls(listing) == Err(Raised))
      && (data.JObj? ==>
            var children := PyIter(PyGet(data.members, "children", JArr([])));
            && (children.Err? ==> ExtractImageUrls(listing) == Err(Raised))
            && (children.Ok? ==> ExtractImageUrls(listing) == ChildrenUrls(children.value)))
  {
  }

  /** The contribution of a list of children whose head contributes. */
  lemma ChildrenCons(c: Json, rest: seq<Json>)
    requires ChildUrls(c).Ok? && ChildrenUrls(rest).Ok?
    ensures ChildrenUrls([c] + rest) == Ok(ChildUrls(c).value + ChildrenUrls(rest).value)
  {
    assert ([c] + rest)[1..] == rest;
  }

  /** The contribution of a two-post listing. */
  lemma TwoPosts(a: Json, b: Json)
    ensures ChildUrls(a).Ok? && ChildUrls(b).Ok? ==>
      ChildrenUrls([a, b]) == Ok(ChildUrls(a).value + ChildUrls(b).value)
  {
    if ChildUrls(a).Ok? && ChildUrls(b).Ok? {
      assert ChildrenUrls([]) == Ok([]);
      assert [b] == [b] + [];
      ChildrenCons(b, []);
      assert ChildrenUrls([b]) == Ok(ChildUrls(b).value + []);
      assert ChildUrls(b).value + [] == ChildUrls(b).value;
      assert [a, b] == [a] + [b];
      ChildrenCons(a, [b]);
    }
  }

  /** One post of the unit test's listing. */
  function TestPost(url: string): Json {
    JObj([("data", JObj([("url", JStr(url))]))])
  }

  /** Looking up a key in a one-member object. */
  lemma PyGetSingle(k: string, v: Json, key: string, default: Json)
    ensures PyGet([(k, v)], key, default) == if key == k then v else default
  {
    if key != k {
      assert !HasKey([(k, v)], key);
    }
  }

  /** A post whose only field is a non-gallery `url` contributes what the
      classifier makes of it. */
  lemma UrlOnlyPost(url: string)
    requires url != ""
    ensures ChildUrls(TestPost(url)) == Ok(OptionList(ClassifyPy(url)))
  {
    var data: Members := [("url", JStr(url))];
    PyGetSingle("data", JObj(data), "data", JObj([]));
    PyGetSingle("url", JStr(url), "url_overridden_by_dest", JNull);
    PyGetSingle("url", JStr(url), "url", JNull);
    PyGetSingle("url", JStr(url), "is_gallery", JNull);
  }

  lemma TestPostUrls()
    ensures ChildUrls(TestPost("https://i.redd.it/example.jpg")) == Ok(["https://i.redd.it/example.jpg"])
    ensures ChildUrls(TestPost("https://imgur.com/abc123")) == Ok(["https://imgur.com/abc123.jpg"])
  {
    TestDirectUrlKept();
    TestImgurUrlCoerced();
    UrlOnlyPost("https://i.redd.it/example.jpg");
    UrlOnlyPost("https://imgur.com/abc123");
  }

  /** A listing that is just a list of children. */
  lemma ExtractOfChildren(items: seq<Json>)
    ensures ExtractImageUrls(JObj([("data", JObj([("children", JArr(items))]))])) == ChildrenUrls(items)
  {
    PyGetSingle("data", JObj([("children", JArr(items))]), "data", JObj([]));
    PyGetSingle("children", JArr(items), "children", JArr([]));
  }

  /** The listing of the repository's unit test yields the direct image
      first and the Imgur page with `.jpg` appended second. */
  lemma ExtractTestListing()
    ensures ExtractImageUrls(JObj([("data", JObj([("children", JArr([
              TestPost("https://i.redd.it/example.jpg"), TestPost("https://imgur.com/abc123")]))]))]))
        == Ok(["https://i.redd.it/example.jpg", "https://imgur.com/abc123.jpg"])
  {
    var post1 := TestPost("https://i.redd.it/example.jpg");
    var post2 := TestPost("https://imgur.com/abc123");
    TestPostUrls();
    TwoPosts(post1, post2);
    ExtractOfChildren([post1, post2]);
    assert ["https://i.redd.it/example.jpg"] + ["https://imgur.com/abc123.jpg"]
        == ["https://i.redd.it/example.jpg", "https://imgur.com/abc123.jpg"];
  }

  /** An Imgur page without an image extension gets `.jpg` appended by the
      Python extractor, and by `pickImageUrlFromListing` too unless it is an
      album (`/a/`). */
  lemma ImgurPageGetsJpg(url: string)
    requires Contains(url, "imgur.com/") && !LowerEndsWithAny(url, PyExtensions)
    ensures ClassifyPy(url) == Some(url + ".jpg")
    ensures !Contains(url, "/a/") ==> CppCandidate(url) == Some(url + ".jpg")
  {
    var at :| 0 <= at <= |url| - 10 && OccursAt(url, "imgur.com/", at);
    assert url[at..at + 9] == url[at..at + 10][..9];
    assert OccursAt(url, "imgur.com", at);
    assert !EndsWithAnyIgnoreCase(url, QtExtensions) by {
      forall e | e in QtExtensions
        ensures !EndsWithIgnoreCase(url, e)
      {
        LowerExtensions(e);
        assert e in PyExtensions;
      }
    }
  }

  /** A URL ending in `.jpg` (any case) is kept as it is. */
  lemma JpgKept(url: string)
    requires |url| >= 4 && ToLower(url[|url| - 4..]) == ".jpg"
    ensures ClassifyPy(url) == Some(url)
  {
    var low := ToLower(url);
    assert low[|url| - 4..] == ToLower(url[|url| - 4..]);
    assert ".jpg" in PyExtensions;
    assert LowerEndsWithAny(url, PyExtensions);
  }

  /** The unit test's direct image is kept. */
  lemma TestDirectUrlKept()
    ensures ClassifyPy("https://i.redd.it/example.jpg") == Some("https://i.redd.it/example.jpg")
  {
    var u1 := "https://i.redd.it/example.jpg";
    assert u1[|u1| - 4..] == ".jpg";
    JpgKept(u1);
  }

  /** The unit test's Imgur page gets `.jpg` appended. */
  lemma TestImgurUrlCoerced()
    ensures ClassifyPy("https://imgur.com/abc123") == Some("https://imgur.com/abc123.jpg")
  {
    var u2 := "https://imgur.com/abc123";
    assert OccursAt(u2, "imgur.com/", 8);
    NoExtension(u2);
    ImgurPageGetsJpg(u2);
    assert u2 + ".jpg" == "https://imgur.com/abc123.jpg";
  }

  // ---- the Qt readers ----

  /** The URL of a child as both Qt readers take it: `url_overridden_by_dest`
      when it is a non-empty string, else `url` (non-strings read as ""). */
  function QtPostUrl(child: Json): (u: string)
    ensures var d := ToObject(Field(ToObject(child), "data"));
      var over := ToStr(Field(d, "url_overridden_by_dest"));
      && (over != "" ==> u == over)
      && (over == "" ==> u == ToStr(Field(d, "url")))
      && (u == "" <==> over == "" && ToStr(Field(d, "url")) == "")
  {
    var d := ToObject(Field(ToObject(child), "data"));
    var over := ToStr(Field(d, "url_overridden_by_dest"));
    if over == "" then ToStr(Field(d, "url")) else over
  }

  /** The children array of a listing document, as Qt reads it. */
  function QtChildren(doc: Json): seq<Json> {
    ToArray(Field(ToObject(Field(ToObject(doc), "data")), "children"))
  }

  /** The extensions the Qt readers recognise. */
  const QtExtensions: seq<string> := [".jpg", ".jpeg", ".png", ".webp"]

  /** Case-insensitive `endsWith` against any of `exts`. */
  predicate EndsWithAnyIgnoreCase(url: string, exts: seq<string>) {
    exists e :: e in exts && EndsWithIgnoreCase(url, e)
  }

  /** `pickImageUrlFromListing`'s rule for one URL: direct images are kept,
      other Imgur links that are not albums get `.jpg` appended. */
  function CppCandidate(url: string): (r: Option<string>)
    ensures r.Some? ==> EndsWithAnyIgnoreCase(r.value, QtExtensions)
    ensures r.None? <==> url == "" || (!EndsWithAnyIgnoreCase(url, QtExtensions) && (!Contains(url, "imgur.com") || Contains(url, "/a/")))
    ensures r.Some? ==> r.value == url || r.value == url + ".jpg"
    ensures EndsWithAnyIgnoreCase(url, QtExtensions) && url != "" ==> r == Some(url)
    ensures url != "" && !EndsWithAnyIgnoreCase(url, QtExtensions) && Contains(url, "imgur.com") && !Contains(url, "/a/") ==>
      r == Some(url + ".jpg")
  {
    if url == "" then None
    else if EndsWithAnyIgnoreCase(url, QtExtensions) then Some(url)
    else if Contains(url, "imgur.com") && !Contains(url, "/a/") then
      JpgSuffixIgnoreCase(url);
      Some(url + ".jpg")
    else None
  }

  lemma JpgSuffixIgnoreCase(url: string)
    ensures EndsWithAnyIgnoreCase(url + ".jpg", QtExtensions)
  {
    var low := ToLower(url + ".jpg");
    assert low[|low| - 4..] == ".jpg";
    assert ToLower(".jpg") == ".jpg";
    assert ".jpg" in QtExtensions;
  }

  /** The candidates of `pickImageUrlFromListing`, in listing order. */
  function CppCandidates(children: seq<Json>): (r: seq<string>)
    ensures |r| <= |children|
    ensures forall u :: u in r ==> EndsWithAnyIgnoreCase(u, QtExtensions)
    ensures forall i :: 0 <= i < |children| && CppCandidate(QtPostUrl(children[i])).Some? ==>
      CppCandidate(QtPostUrl(children[i])).value in r
    decreases |children|
  {
    if |children| == 0 then []
    else
      var rest := CppCandidates(children[1..]);
      assert forall i :: 1 <= i < |children| ==> children[i] == children[1..][i - 1];
      OptionList(CppCandidate(QtPostUrl(children[0]))) + rest
  }

  /** The candidates of a listing are those of its first part followed by
      those of the rest: listing order and multiplicity are kept. */
  lemma {:induction false} CppCandidatesAppend(a: seq<Json>, b: seq<Json>)
    ensures CppCandidates(a + b) == CppCandidates(a) + CppCandidates(b)
    decreases |a|
  {
    if |a| > 0 {
      assert (a + b)[0] == a[0];
      assert (a + b)[1..] == a[1..] + b;
      CppCandidatesAppend(a[1..], b);
    } else {
      assert a + b == b;
    }
  }

  /** Some post of the listing has `u` as its candidate. */
  ghost predicate SomePostYields(children: seq<Json>, u: string) {
    exists i :: 0 <= i < |children| && CppCandidate(QtPostUrl(children[i])) == Some(u)
  }

  lemma PostYieldsShift(children: seq<Json>, u: string)
    requires |children| > 0 && SomePostYields(children[1..], u)
    ensures SomePostYields(children, u)
  {
    var i :| 0 <= i < |children| - 1 && CppCandidate(QtPostUrl(children[1..][i])) == Some(u);
    assert children[1..][i] == children[i + 1];
  }

  /** A URL among the candidates is the candidate of some post. */
  lemma {:induction false} CandidateFromPost(children: seq<Json>, u: string)
    requires u in CppCandidates(children)
    ensures SomePostYields(children, u)
    decreases |children|
  {
    var first := CppCandidate(QtPostUrl(children[0]));
    var tail := children[1..];
    assert CppCandidates(children) == OptionList(first) + CppCandidates(tail);
    if first == Some(u) {
      assert CppCandidate(QtPostUrl(children[0])) == Some(u);
    } else {
      assert u !in OptionList(first);
      CandidateFromPost(tail, u);
      PostYieldsShift(children, u);
    }
  }

  /** Every candidate is the candidate of some post of the listing. */
  lemma CppCandidatesFromPosts(children: seq<Json>)
    ensures forall u :: u in CppCandidates(children) ==> SomePostYields(children, u)
  {
    forall u | u in CppCandidates(children)
      ensures SomePostYields(children, u)
    {
      CandidateFromPost(children, u);
    }
  }

  /** A single post contributes its own candidate, if it has one. */
  lemma CppCandidatesSingle(c: Json)
    ensures CppCandidates([c]) == OptionList(CppCandidate(QtPostUrl(c)))
  {
    assert [c][1..] == [];
  }

  /** A URL with an image extension is not empty. */
  lemma ExtensionNonEmpty(u: string)
    requires EndsWithAnyIgnoreCase(u, QtExtensions)
    ensures u != ""
  {
    var e :| e in QtExtensions && EndsWithIgnoreCase(u, e);
    assert |ToLower(e)| > 0;
  }

  /** `pickImageUrlFromListing`: empty when the body is not a JSON object or
      has no candidate; otherwise the `roll`-th candidate modulo their
      number. */
  function PickImageUrlFromListing(doc: Option<Json>, roll: nat): (r: string)
    ensures doc.None? || !doc.value.JObj? ==> r == ""
    ensures doc.Some? && doc.value.JObj? ==>
      (r == "" <==> |CppCandidates(QtChildren(doc.value))| == 0)
    ensures r != "" ==> doc.Some? && r in CppCandidates(QtChildren(doc.value))
    ensures r != "" ==> EndsWithAnyIgnoreCase(r, QtExtensions)
  {
    if doc.None? || !doc.value.JObj? then ""
    else
      var cands := CppCandidates(QtChildren(doc.value));
      if |cands| == 0 then ""
      else
        var u := cands[roll % |cands|];
        assert u in cands;
        ExtensionNonEmpty(u);
        u
  }

  /** `fetchRecentImageUrls`' rule for one URL: non-empty, and a
      case-sensitive image extension or any mention of `imgur.com`. */
  predicate FetcherKeeps(url: string) {
    url != "" && ((exists e :: e in QtExtensions && EndsWith(url, e)) || Contains(url, "imgur.com"))
  }

  /** The post URLs of a listing, one per child. */
  function PostUrls(children: seq<Json>): (r: seq<string>)
    ensures |r| == |children| && forall i :: 0 <= i < |children| ==> r[i] == QtPostUrl(children[i])
  {
    seq(|children|, i requires 0 <= i < |children| => QtPostUrl(children[i]))
  }

  /** What the GET returned: a network error, or a body that decoded to a
      document (`None` when it is not JSON). */
  datatype Reply = NetworkError | Body(doc: Option<Json>)

  /** `RedditFetcher::fetchRecentImageUrls`: the URLs it keeps, verbatim and
      in listing order; nothing on a network error or a non-object body. */
  method FetchRecentImageUrls(reply: Reply) returns (out: seq<string>)
    ensures reply.NetworkError? || reply.doc.None? || !reply.doc.value.JObj? ==> out == []
    ensures reply.Body? && reply.doc.Some? && reply.doc.value.JObj? ==>
      out == Filter(PostUrls(QtChildren(reply.doc.value)), FetcherKeeps)
  {
    out := [];
    if reply.NetworkError? || reply.doc.None? || !reply.doc.value.JObj? {
      return;
    }
    var all := PostUrls(QtChildren(reply.doc.value));
    out := KeepAll(all);
  }

  /** The fetcher's loop over the post URLs. */
  method KeepAll(all: seq<string>) returns (out: seq<string>)
    ensures out == Filter(all, FetcherKeeps)
  {
    out := [];
    var i := 0;
    while i < |all|
      invariant 0 <= i <= |all|
      invariant out == Filter(all[..i], FetcherKeeps)
    {
      var url := all[i];
      assert all[..i + 1] == all[..i] + [url];
      FilterAppend(all[..i], [url], FetcherKeeps);
      if FetcherKeeps(url) {
        out := out + [url];
      }
      i := i + 1;
    }
    assert all[..|all|] == all;
  }

  // ---- how the three classifiers relate ----

  lemma LowerExtensions(e: string)
    requires e in PyExtensions || e in QtExtensions
    ensures ToLower(e) == e
  {
    assert forall i :: 0 <= i < |e| ==> ToLowerChar(e[i]) == e[i];
  }

  /** A URL whose last character is not the last letter of an extension
      ends with none of them. */
  lemma NoExtension(url: string)
    requires |url| > 0 && ToLowerChar(url[|url| - 1]) !in {'g', 'f', 'p'}
    ensures !LowerEndsWithAny(url, PyExtensions)
    ensures !EndsWithAnyIgnoreCase(url, QtExtensions)
  {
    var last := ToLower(url)[|url| - 1];
    forall e | e in PyExtensions
      ensures !EndsWith(ToLower(url), e)
    {
      assert e[|e| - 1] in {'g', 'f', 'p'};
    }
    forall e | e in QtExtensions
      ensures !EndsWithIgnoreCase(url, e)
    {
      LowerExtensions(e);
      assert e[|e| - 1] in {'g', 'f', 'p'};
    }
  }

  /** A direct link with a Qt-recognised extension (any case) is kept
      verbatim by both the Python extractor and `pickImageUrlFromListing`. */
  lemma DirectLinksAgree(url: string)
    requires EndsWithAnyIgnoreCase(url, QtExtensions)
    ensures ClassifyPy(url) == Some(url)
    ensures CppCandidate(url) == Some(url)
  {
    var e :| e in QtExtensions && EndsWithIgnoreCase(url, e);
    LowerExtensions(e);
    assert e in PyExtensions;
    assert LowerEndsWithAny(url, PyExtensions);
  }

  /** Every URL the fetcher keeps for its extension is also kept verbatim by
      `pickImageUrlFromListing`. */
  lemma FetcherExtensionImpliesCandidate(url: string)
    requires url != "" && exists e :: e in QtExtensions && EndsWith(url, e)
    ensures CppCandidate(url) == Some(url)
  {
    var e :| e in QtExtensions && EndsWith(url, e);
    LowerExtensions(e);
    var low := ToLower(url);
    assert low[|url| - |e|..] == ToLower(url[|url| - |e|..]);
    assert EndsWithIgnoreCase(url, e);
  }

  /** The readers disagree on Imgur albums: Python appends `.jpg`, the C++
      picker drops the post. */
  lemma AlbumsDisagree()
    ensures ClassifyPy("https://imgur.com/a/xyz") == Some("https://imgur.com/a/xyz.jpg")
    ensures CppCandidate("https://imgur.com/a/xyz") == None
  {
    var u := "https://imgur.com/a/xyz";
    assert OccursAt(u, "imgur.com/", 8);
    assert OccursAt(u, "/a/", 17);
    NoExtension(u);
    assert u + ".jpg" == "https://imgur.com/a/xyz.jpg";
  }
}
