/** Choosing a wallpaper from the cache: the "new random" and "random
    favorite" actions of the main window.  The directory listing, the
    aspect-ratio filters (`accepts`), the random generator (`roll`) and the
    desktop backend (`setOk`) are parameters. */
module Selection {
  import opened Wrappers
  import opened Strings
  import opened Json
  import opened Seqs
  import opened CacheIndex
  import CacheManager

  /** The alternatives of the extension pattern `png|jpe?g|bmp|webp|gif`. */
  const ImageExtensions: seq<string> := ["png", "jpg", "jpeg", "bmp", "webp", "gif"]

  /** The extension pattern matches at position `i` with alternative `ext`:
      a dot, the extension in any case, then the end of the name, a `?`, or
      a final newline (where `$` also matches). */
  predicate ExtMatchAt(name: string, i: int, ext: string) {
    0 <= i && i + 1 + |ext| <= |name| && name[i] == '.'
    && ToLower(name[i + 1..i + 1 + |ext|]) == ext
    && var j := i + 1 + |ext|;
       (j == |name| || name[j] == '?' || (j == |name| - 1 && name[j] == '\n'))
  }

  /** The case-insensitive extension pattern finds a match somewhere in the
      file name. */
  predicate HasImageExtension(name: string) {
    exists i, ext :: 0 <= i < |name| && ext in ImageExtensions && ExtMatchAt(name, i, ext)
  }

  /** A listed file may be picked by "new random": its name has an image
      extension, its index entry is not banned, and the filters accept it. */
  predicate Eligible(dir: string, idx: Index, accepts: string -> bool, name: string) {
    HasImageExtension(name) && !IsBanned(Entry(idx, name)) && accepts(CacheManager.JoinPath(dir, name))
  }

  /** A listed file may be picked by "random favorite": eligible and
      favorited. */
  predicate FavoriteEligible(dir: string, idx: Index, accepts: string -> bool, name: string) {
    Eligible(dir, idx, accepts, name) && IsFavorite(Entry(idx, name))
  }

  /** The candidates of "new random", in listing order. */
  function RandomCandidates(dir: string, files: seq<string>, idx: Index, accepts: string -> bool): seq<string> {
    Filter(files, name => Eligible(dir, idx, accepts, name))
  }

  /** The candidates of "random favorite", in listing order. */
  function FavoriteCandidates(dir: string, files: seq<string>, idx: Index, accepts: string -> bool): seq<string> {
    Filter(files, name => FavoriteEligible(dir, idx, accepts, name))
  }

  /** The favorite candidates are exactly the random candidates that are
      favorited, in the same order. */
  lemma FavoritesRefineRandom(dir: string, files: seq<string>, idx: Index, accepts: string -> bool)
    ensures FavoriteCandidates(dir, files, idx, accepts)
         == Filter(RandomCandidates(dir, files, idx, accepts), name => IsFavorite(Entry(idx, name)))
    ensures IsSubsequence(FavoriteCandidates(dir, files, idx, accepts), RandomCandidates(dir, files, idx, accepts))
  {
    var p := name => Eligible(dir, idx, accepts, name);
    var q := name => IsFavorite(Entry(idx, name));
    var pq := name => FavoriteEligible(dir, idx, accepts, name);
    FilterFilter(files, p, q, pq);
    FilterIsSubsequence(RandomCandidates(dir, files, idx, accepts), q);
  }

  /** The window's notion of the wallpaper on screen and of the image whose
      details are shown. */
  datatype Ui = Ui(current: string, selected: string)

  /** What an action did: the path handed to the backend, if any, and the
      window state afterwards. */
  datatype Outcome = Outcome(tried: Option<string>, ui: Ui)

  /** Hand `chosen` to the backend; on success it becomes both the current
      wallpaper and the selected image. */
  function Apply(chosen: string, setOk: string -> bool, ui: Ui): Outcome {
    Outcome(Some(chosen), if setOk(chosen) then Ui(chosen, chosen) else ui)
  }

  /** `onNewRandom`.  `accepts` is the viewer's filter once its aspect
      target has been set to the primary screen's aspect. */
  function NewRandom(dir: string, dirExists: bool, files: seq<string>, idx: Index,
                     accepts: string -> bool, roll: nat, setOk: string -> bool, ui: Ui): (o: Outcome)
    ensures o.tried.Some? <==> dirExists && exists f :: f in files && Eligible(dir, idx, accepts, f)
    ensures o.tried.Some? ==>
      exists f :: f in files && Eligible(dir, idx, accepts, f) && o.tried.value == CacheManager.JoinPath(dir, f)
    ensures o.tried.Some? && setOk(o.tried.value) ==> o.ui == Ui(o.tried.value, o.tried.value)
    ensures o.tried.None? || !setOk(o.tried.value) ==> o.ui == ui
  {
    var cands := RandomCandidates(dir, files, idx, accepts);
    if !dirExists || |cands| == 0 then Outcome(None, ui)
    else
      var f := cands[roll % |cands|];
      assert f in cands;
      Apply(CacheManager.JoinPath(dir, f), setOk, ui)
  }

  /** `onRandomFavorite`: a favorite when there is one; otherwise it falls
      back to `onNewRandom`, which draws its own random number.  The
      favorites are filtered with the viewer's current aspect target
      (`accepts`); the fallback first sets that target to the primary
      screen's aspect, so it filters with `refreshedAccepts`. */
  function RandomFavorite(dir: string, dirExists: bool, files: seq<string>, idx: Index,
                          accepts: string -> bool, refreshedAccepts: string -> bool,
                          roll: nat, fallbackRoll: nat,
                          setOk: string -> bool, ui: Ui): (o: Outcome)
    ensures !dirExists ==> o == Outcome(None, ui)
    ensures dirExists && (exists f :: f in files && FavoriteEligible(dir, idx, accepts, f)) ==>
      exists f :: f in files && FavoriteEligible(dir, idx, accepts, f) && o.tried == Some(CacheManager.JoinPath(dir, f))
    ensures dirExists && (forall f :: f in files ==> !FavoriteEligible(dir, idx, accepts, f)) ==>
      o == NewRandom(dir, dirExists, files, idx, refreshedAccepts, fallbackRoll, setOk, ui)
    ensures o.tried.Some? && setOk(o.tried.value) ==> o.ui == Ui(o.tried.value, o.tried.value)
    ensures o.tried.None? || !setOk(o.tried.value) ==> o.ui == ui
  {
    var cands := FavoriteCandidates(dir, files, idx, accepts);
    if !dirExists then Outcome(None, ui)
    else if |cands| == 0 then NewRandom(dir, dirExists, files, idx, refreshedAccepts, fallbackRoll, setOk, ui)
    else
      var f := cands[roll % |cands|];
      assert f in cands;
      Apply(CacheManager.JoinPath(dir, f), setOk, ui)
  }

  /** Directory entries are plain names. */
  predicate PlainNames(files: seq<string>) {
    forall f :: f in files ==> '/' !in f
  }

  /** A banned file is never handed to the backend by either action. */
  lemma NeverBanned(dir: string, dirExists: bool, files: seq<string>, idx: Index,
                    accepts: string -> bool, refreshedAccepts: string -> bool,
                    roll: nat, fallbackRoll: nat, setOk: string -> bool, ui: Ui)
    requires PlainNames(files)
    ensures var o := NewRandom(dir, dirExists, files, idx, accepts, roll, setOk, ui);
      o.tried.Some? ==> !IsBanned(Entry(idx, FileName(o.tried.value)))
    ensures var o := RandomFavorite(dir, dirExists, files, idx, accepts, refreshedAccepts, roll, fallbackRoll, setOk, ui);
      o.tried.Some? ==> !IsBanned(Entry(idx, FileName(o.tried.value)))
  {
  }

  /** When the favorites are found, the picked file is favorited. */
  lemma FavoritePickIsFavorite(dir: string, files: seq<string>, idx: Index,
                               accepts: string -> bool, refreshedAccepts: string -> bool,
                               roll: nat, fallbackRoll: nat, setOk: string -> bool, ui: Ui, f: string)
    requires PlainNames(files)
    requires f in files && FavoriteEligible(dir, idx, accepts, f)
    ensures var o := RandomFavorite(dir, true, files, idx, accepts, refreshedAccepts, roll, fallbackRoll, setOk, ui);
      o.tried.Some? && IsFavorite(Entry(idx, FileName(o.tried.value)))
  {
  }

  // ---- the extension pattern against the cache's glob filters ----

  lemma ToLowerSlice(s: string, i: int, j: int)
    requires 0 <= i <= j <= |s|
    ensures ToLower(s)[i..j] == ToLower(s[i..j])
  {
  }

  /** Each glob suffix is a dot followed by one alternative of the
      extension pattern, already in lower case. */
  lemma GlobExtensionShape(e: string)
    requires e in CacheManager.GlobExtensions
    ensures |e| > 0 && e[0] == '.' && e[1..] in ImageExtensions && ToLower(e) == e
  {
    forall c | c in e
      ensures ToLowerChar(c) == c
    {
    }
    assert forall i :: 0 <= i < |e| ==> ToLower(e)[i] == e[i];
  }

  /** A glob that accepts `name`, seen as a dot and an extension
      alternative that the lower-cased name ends with. */
  lemma PickGlob(name: string) returns (e: string)
    requires CacheManager.GlobMatch(name)
    ensures |e| > 0 && e[0] == '.' && e[1..] in ImageExtensions && EndsWith(ToLower(name), e)
  {
    e :| e in CacheManager.GlobExtensions && EndsWithIgnoreCase(name, e);
    GlobExtensionShape(e);
  }

  /** A name whose lower-cased form ends in a dot and some text ends in a
      dot and that text, in any case. */
  lemma LowerDotSuffix(name: string, e: string)
    requires |e| > 0 && e[0] == '.' && EndsWith(ToLower(name), e)
    ensures |e| <= |name| && name[|name| - |e|] == '.' && ToLower(name[|name| - |e| + 1..]) == e[1..]
  {
    var i := |name| - |e|;
    var low := ToLower(name);
    assert low[i] == e[0];
    assert low[i + 1..] == e[1..];
    ToLowerSlice(name, i + 1, |name|);
  }

  /** Every name the glob filters of `randomImagePath` list also matches the
      extension pattern of the two actions. */
  lemma GlobImpliesExtension(name: string)
    requires CacheManager.GlobMatch(name)
    ensures HasImageExtension(name)
  {
    var e := PickGlob(name);
    LowerDotSuffix(name, e);
    ExtensionAtEnd(name, |name| - |e|, e[1..]);
  }

  /** A dot followed by an extension alternative that ends the name is a
      match of the pattern. */
  lemma ExtensionAtEnd(name: string, i: int, ext: string)
    requires 0 <= i && i + 1 + |ext| == |name| && ext in ImageExtensions
    requires name[i] == '.' && ToLower(name[i + 1..]) == ext
    ensures HasImageExtension(name)
  {
    assert name[i + 1..i + 1 + |ext|] == name[i + 1..];
    assert ExtMatchAt(name, i, ext);
  }

  /** The converse fails: a name with a query string after the extension is
      a candidate of the two actions but is missed by the glob filters. */
  lemma QueryNameMissedByGlob()
    ensures HasImageExtension("a.jpg?w=1")
    ensures !CacheManager.GlobMatch("a.jpg?w=1")
  {
    var name := "a.jpg?w=1";
    assert name[2..5] == "jpg";
    assert ExtMatchAt(name, 1, "jpg");
    forall e | e in CacheManager.GlobExtensions
      ensures !EndsWithIgnoreCase(name, e)
    {
      assert ToLower(name)[|name| - 1] == '1';
      assert ToLower(e)[|e| - 1] != '1';
    }
  }
}
