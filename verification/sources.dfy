/** The subreddit sources panel: the list of subreddit names the user
    follows, the text field new names are typed into, and the time each
    subreddit was last fetched.  The panel stores itself as a JSON object
    mapping each name to an ISO-8601 timestamp (or the empty string), and
    also accepts a plain JSON array of names. */
module Sources {
  import opened Wrappers
  import opened Strings
  import opened Json
  import opened Seqs

  /** A point in time at the resolution of Qt's ISO-8601 form (whole seconds). */
  type Time = int

  datatype Panel = Panel(list: seq<string>, edit: string, lastUpdated: map<string, Time>)

  /** The panel after a user action or a load, and the list handed to the
      `sourcesChanged` signal when the action emits it. */
  datatype Pressed = Pressed(panel: Panel, emitted: Option<seq<string>>)

  /** Some listed name equals `name` ignoring case. */
  predicate Listed(list: seq<string>, name: string) {
    exists i :: 0 <= i < |list| && EqualsIgnoreCase(list[i], name)
  }

  /** No two listed names are equal ignoring case. */
  predicate Distinct(list: seq<string>) {
    forall i, j :: 0 <= i < j < |list| ==> !EqualsIgnoreCase(list[i], list[j])
  }

  /** The invariant the Add button is meant to keep: distinct, non-empty names. */
  predicate WellFormed(list: seq<string>) {
    Distinct(list) && forall i :: 0 <= i < |list| ==> list[i] != ""
  }

  /** The name typed into the field: trimmed, then one leading `r/` dropped. */
  function TypedName(text: string): (name: string)
    ensures StartsWith(Trim(text), "r/") ==> Trim(text) == "r/" + name
    ensures !StartsWith(Trim(text), "r/") ==> name == Trim(text)
  {
    var t := Trim(text);
    if StartsWith(t, "r/") then t[2..] else t
  }

  /** The Add button as written: the emptiness test is made on the trimmed
      text before `r/` is dropped, so the text `r/` adds an empty name. */
  function AddAsWritten(p: Panel): (r: Pressed)
    ensures r.emitted.None? <==> Trim(p.edit) == "" || Listed(p.list, TypedName(p.edit))
    ensures r.emitted.None? ==> r.panel == p
    ensures r.emitted.Some? ==> r.panel == Panel(p.list + [TypedName(p.edit)], "", p.lastUpdated)
    ensures r.emitted.Some? ==> r.emitted.value == r.panel.list
  {
    if Trim(p.edit) == "" then Pressed(p, None)
    else
      var name := TypedName(p.edit);
      if Listed(p.list, name) then Pressed(p, None)
      else
        var list := p.list + [name];
        Pressed(p.(list := list, edit := ""), Some(list))
  }

  /** The Add button with the emptiness test applied to the name actually added. */
  function Add(p: Panel): (r: Pressed)
    ensures r.emitted.None? <==> TypedName(p.edit) == "" || Listed(p.list, TypedName(p.edit))
    ensures r.emitted.None? ==> r.panel == p
    ensures r.emitted.Some? ==> r.panel == Panel(p.list + [TypedName(p.edit)], "", p.lastUpdated)
    ensures r.emitted.Some? ==> r.emitted.value == r.panel.list
  {
    var name := TypedName(p.edit);
    if name == "" then Pressed(p, None)
    else if Listed(p.list, name) then Pressed(p, None)
    else
      var list := p.list + [name];
      Pressed(p.(list := list, edit := ""), Some(list))
  }

  /** Appending a name that is not listed keeps the names distinct. */
  lemma AppendUnlisted(list: seq<string>, name: string)
    requires Distinct(list) && !Listed(list, name)
    ensures Distinct(list + [name])
  {
    var l := list + [name];
    forall i, j | 0 <= i < j < |l| ensures !EqualsIgnoreCase(l[i], l[j]) {
      if j == |list| {
        assert l[i] == list[i];
        assert !EqualsIgnoreCase(list[i], name);
      }
    }
  }

  /** Add keeps the list free of empty names and case-insensitive duplicates. */
  lemma AddKeepsWellFormed(p: Panel)
    requires WellFormed(p.list)
    ensures WellFormed(Add(p).panel.list)
  {
    var name := TypedName(p.edit);
    if name != "" && !Listed(p.list, name) {
      AppendUnlisted(p.list, name);
    }
  }

  /** Typing the same text again right after a successful Add changes nothing
      and emits nothing. */
  lemma AddTwiceIsNoOp(p: Panel)
    requires Add(p).emitted.Some?
    ensures Add(Add(p).panel.(edit := p.edit)) == Pressed(Add(p).panel.(edit := p.edit), None)
  {
    var l := Add(p).panel.list;
    var name := TypedName(p.edit);
    assert l[|l| - 1] == name;
    assert Listed(l, name);
  }

  /** The as-written Add accepts the text `r/` and lists an empty name,
      which breaks the invariant the corrected Add keeps. */
  lemma AddAcceptsBarePrefix()
    ensures AddAsWritten(Panel([], "r/", map[])).panel.list == [""]
    ensures !WellFormed(AddAsWritten(Panel([], "r/", map[])).panel.list)
    ensures Add(Panel([], "r/", map[])).emitted.None?
  {
    assert StartsWith("r/", "r/");
    assert Trim("r/") == "r/" by {
      assert !IsSpace("r/"[0]);
    }
    assert TypedName("r/") == "";
    assert AddAsWritten(Panel([], "r/", map[])).panel.list[0] == "";
  }

  /** The names left after deleting the items at the selected positions;
      `from` is the position of `list[0]` in the whole list. */
  function Unselected(list: seq<string>, selected: set<int>, from: int): (r: seq<string>)
    ensures |r| <= |list|
    ensures IsSubsequence(r, list)
    ensures forall x :: x in r ==> x in list
    ensures forall i :: 0 <= i < |list| && from + i !in selected ==> list[i] in r
    decreases |list|
  {
    if |list| == 0 then []
    else
      var rest := Unselected(list[1..], selected, from + 1);
      assert forall i :: 1 <= i < |list| ==> list[i] == list[1..][i - 1];
      if from in selected then
        SubsequenceOfTail(rest, list);
        rest
      else
        assert ([list[0]] + rest)[1..] == rest;
        [list[0]] + rest
  }

  /** The same deletion, defined without a contract: the reference the
      order lemmas below are proved against. */
  function Kept(list: seq<string>, selected: set<int>, from: int): seq<string>
    decreases |list|
  {
    if |list| == 0 then []
    else (if from in selected then [] else [list[0]]) + Kept(list[1..], selected, from + 1)
  }

  lemma {:induction false} UnselectedIsKept(list: seq<string>, selected: set<int>, from: int)
    ensures Unselected(list, selected, from) == Kept(list, selected, from)
    decreases |list|
  {
    if |list| > 0 {
      UnselectedIsKept(list[1..], selected, from + 1);
    }
  }

  /** Deleting rows from two parts of a list deletes them from each part:
      the kept rows stay in order, duplicates included. */
  lemma {:induction false} KeptAppend(a: seq<string>, b: seq<string>, selected: set<int>, from: int)
    ensures Kept(a + b, selected, from) == Kept(a, selected, from) + Kept(b, selected, from + |a|)
    decreases |a|
  {
    if |a| == 0 {
      assert a + b == b;
    } else {
      var ab := a + b;
      assert ab[0] == a[0];
      assert ab[1..] == a[1..] + b;
      KeptAppend(a[1..], b, selected, from + 1);
    }
  }

  /** A single row is kept exactly when it is not selected. */
  lemma KeptSingle(x: string, selected: set<int>, at: int)
    ensures Kept([x], selected, at) == if at in selected then [] else [x]
  {
    assert [x][1..] == [];
  }

  /** The Remove button: deletes the selected rows and always emits. */
  function Remove(p: Panel, selected: set<int>): (r: Pressed)
    ensures IsSubsequence(r.panel.list, p.list)
    ensures forall i :: 0 <= i < |p.list| && i !in selected ==> p.list[i] in r.panel.list
    ensures r.panel.edit == p.edit && r.panel.lastUpdated == p.lastUpdated
    ensures r.emitted == Some(r.panel.list)
    ensures r.panel.list == Kept(p.list, selected, 0)
  {
    UnselectedIsKept(p.list, selected, 0);
    var list := Unselected(p.list, selected, 0);
    Pressed(p.(list := list), Some(list))
  }

  lemma {:induction false} UnselectedOmits(list: seq<string>, selected: set<int>, from: int, i: int)
    requires forall a, b :: 0 <= a < b < |list| ==> list[a] != list[b]
    requires 0 <= i < |list| && from + i in selected
    ensures list[i] !in Unselected(list, selected, from)
    decreases |list|
  {
    var rest := Unselected(list[1..], selected, from + 1);
    if i == 0 {
      assert list[0] !in list[1..] by {
        forall k | 0 <= k < |list[1..]| ensures list[1..][k] != list[0] {
          assert list[1..][k] == list[k + 1];
        }
      }
    } else {
      assert list[0] != list[i];
      assert list[1..][i - 1] == list[i];
      UnselectedOmits(list[1..], selected, from + 1, i - 1);
    }
  }

  /** Names are listed at most once, so a selected row's name is gone. */
  lemma RemoveDropsSelected(p: Panel, selected: set<int>, i: int)
    requires Distinct(p.list)
    requires 0 <= i < |p.list| && i in selected
    ensures p.list[i] !in Remove(p, selected).panel.list
  {
    forall a, b | 0 <= a < b < |p.list| ensures p.list[a] != p.list[b] {
      assert !EqualsIgnoreCase(p.list[a], p.list[b]);
    }
    UnselectedOmits(p.list, selected, 0, i);
  }

  lemma {:induction false} UnselectedKeepsWellFormed(list: seq<string>, selected: set<int>, from: int)
    requires WellFormed(list)
    ensures WellFormed(Unselected(list, selected, from))
    decreases |list|
  {
    if |list| > 0 {
      var tail := list[1..];
      assert WellFormed(tail) by {
        forall a, b | 0 <= a < b < |tail| ensures !EqualsIgnoreCase(tail[a], tail[b]) {
          assert tail[a] == list[a + 1] && tail[b] == list[b + 1];
        }
      }
      UnselectedKeepsWellFormed(tail, selected, from + 1);
      var rest := Unselected(tail, selected, from + 1);
      if from !in selected {
        var r := [list[0]] + rest;
        forall a, b | 0 <= a < b < |r| ensures !EqualsIgnoreCase(r[a], r[b]) {
          if a == 0 {
            assert r[b] == rest[b - 1];
            assert r[b] in tail;
            var k :| 0 <= k < |tail| && tail[k] == r[b];
            assert tail[k] == list[k + 1];
          } else {
            assert r[a] == rest[a - 1] && r[b] == rest[b - 1];
          }
        }
      }
    }
  }

  /** Remove keeps the list free of empty names and duplicates. */
  lemma RemoveKeepsWellFormed(p: Panel, selected: set<int>)
    requires WellFormed(p.list)
    ensures WellFormed(Remove(p, selected).panel.list)
  {
    UnselectedKeepsWellFormed(p.list, selected, 0);
  }

  /** `setSources`: the list is replaced wholesale; nothing is emitted. */
  function SetSources(p: Panel, sources: seq<string>): (r: Panel)
    ensures r.list == sources
    ensures r.edit == p.edit && r.lastUpdated == p.lastUpdated
  {
    p.(list := sources)
  }

  /** `setLastUpdated`: an empty name is ignored; otherwise its time is recorded. */
  function SetLastUpdated(p: Panel, subreddit: string, when: Time): (r: Panel)
    ensures subreddit == "" ==> r == p
    ensures subreddit != "" ==> subreddit in r.lastUpdated && r.lastUpdated[subreddit] == when
    ensures forall k :: k != subreddit ==> (k in r.lastUpdated <==> k in p.lastUpdated)
    ensures forall k :: k != subreddit && k in p.lastUpdated ==> r.lastUpdated[k] == p.lastUpdated[k]
    ensures r.list == p.list && r.edit == p.edit
  {
    if subreddit == "" then p else p.(lastUpdated := p.lastUpdated[subreddit := when])
  }

  // ---- the sources file ----

  /** What reading the sources file yields: no file, a file that cannot be
      opened, or its contents, which are a document or unparsable (`None`). */
  datatype SourceFile = Absent | Unopenable | Opened(doc: Option<Json>)

  /** The string elements of an array, in order; other elements are skipped. */
  function ArrayStrings(items: seq<Json>): (r: seq<string>)
    ensures |r| <= |items|
    ensures forall s :: s in r <==> JStr(s) in items
    decreases |items|
  {
    if |items| == 0 then []
    else
      var rest := ArrayStrings(items[1..]);
      assert forall j :: j in items <==> j == items[0] || j in items[1..];
      if items[0].JStr? then [items[0].s] + rest else rest
  }

  /** The strings of two parts of an array are those of each part, in
      order, duplicates included. */
  lemma {:induction false} ArrayStringsAppend(a: seq<Json>, b: seq<Json>)
    ensures ArrayStrings(a + b) == ArrayStrings(a) + ArrayStrings(b)
    decreases |a|
  {
    if |a| == 0 {
      assert a + b == b;
    } else {
      assert (a + b)[0] == a[0];
      assert (a + b)[1..] == a[1..] + b;
      ArrayStringsAppend(a[1..], b);
    }
  }

  /** A single element contributes its text when it is a string, and
      nothing otherwise. */
  lemma ArrayStringsSingle(j: Json)
    ensures ArrayStrings([j]) == if j.JStr? then [j.s] else []
  {
    assert [j][1..] == [];
  }

  /** The timestamp stored under `key`, when its value is a string that
      parses as an ISO-8601 date. */
  function StampOf(ms: Members, key: string, parse: string -> Option<Time>): Option<Time> {
    match Get(ms, key)
    case Some(JStr(s)) => parse(s)
    case _ => None
  }

  /** The timestamps an object form records. */
  function Stamps(ms: Members, parse: string -> Option<Time>): (m: map<string, Time>)
    ensures forall k :: k in m <==> HasKey(ms, k) && StampOf(ms, k, parse).Some?
    ensures forall k :: k in m ==> Some(m[k]) == StampOf(ms, k, parse)
  {
    map k | k in Keys(ms) && StampOf(ms, k, parse).Some? :: StampOf(ms, k, parse).value
  }

  /** `loadFromFile`. The result's `emitted` is the signal sent, and the
      function returns true exactly when it is sent. */
  function Load(p: Panel, file: SourceFile, parse: string -> Option<Time>): (r: Pressed)
    ensures !file.Opened? ==> r == Pressed(p, None)
    ensures r.emitted.Some? <==> file.Opened? && file.doc.Some? && (file.doc.value.JArr? || file.doc.value.JObj?)
    ensures r.emitted.Some? ==> r.panel.list == r.emitted.value
    ensures r.emitted.None? ==> r.panel.list == p.list
    ensures r.panel.edit == p.edit
    ensures file.Opened? && r.emitted.None? ==> r.panel.lastUpdated == map[]
    ensures file.Opened? && file.doc.Some? && file.doc.value.JArr? ==>
      r.panel.list == ArrayStrings(file.doc.value.items)
      && (forall s :: s in r.panel.list <==> JStr(s) in file.doc.value.items) && r.panel.lastUpdated == map[]
    ensures file.Opened? && file.doc.Some? && file.doc.value.JObj? ==>
      r.panel.list == Keys(file.doc.value.members)
      && (forall k :: k in r.panel.list <==> HasKey(file.doc.value.members, k))
      && r.panel.lastUpdated == Stamps(file.doc.value.members, parse)
  {
    match file
    case Absent => Pressed(p, None)
    case Unopenable => Pressed(p, None)
    case Opened(doc) =>
      var cleared := p.(lastUpdated := map[]);
      if doc.Some? && doc.value.JArr? then
        var s := ArrayStrings(doc.value.items);
        Pressed(cleared.(list := s), Some(s))
      else if doc.Some? && doc.value.JObj? then
        var s := Keys(doc.value.members);
        Pressed(cleared.(list := s, lastUpdated := Stamps(doc.value.members, parse)), Some(s))
      else
        Pressed(cleared, None)
  }

  /** The text saved for one source: its ISO timestamp, or empty when unknown. */
  function StampText(lastUpdated: map<string, Time>, s: string, iso: Time -> string): string {
    if s in lastUpdated then iso(lastUpdated[s]) else ""
  }

  /** The object `saveToFile` builds, inserting the sources in list order. */
  function SaveMembers(list: seq<string>, lastUpdated: map<string, Time>, iso: Time -> string): (r: Members)
    ensures forall k :: HasKey(r, k) <==> k in list
    ensures forall k :: k in list ==> Get(r, k) == Some(JStr(StampText(lastUpdated, k, iso)))
    decreases |list|
  {
    if |list| == 0 then []
    else
      var init := list[..|list| - 1];
      var s := list[|list| - 1];
      var before := SaveMembers(init, lastUpdated, iso);
      var r := Set(before, s, JStr(StampText(lastUpdated, s, iso)));
      assert forall k :: k in list <==> k in init || k == s by {
        assert list == init + [s];
      }
      assert forall k :: HasKey(r, k) <==> HasKey(before, k) || k == s;
      forall k | k in list ensures Get(r, k) == Some(JStr(StampText(lastUpdated, k, iso))) {
        GetSet(before, s, JStr(StampText(lastUpdated, s, iso)), k);
      }
      r
  }

  /** `saveToFile`: the document written, or `None` when the file cannot be
      opened for writing. */
  function Save(p: Panel, iso: Time -> string, writeOk: bool): (r: Option<Json>)
    ensures r.Some? <==> writeOk
    ensures r.Some? ==> r.value.JObj?
    ensures r.Some? ==> forall k :: HasKey(r.value.members, k) <==> k in p.list
    ensures r.Some? ==> forall k :: k in p.list ==> Field(r.value.members, k) == JStr(StampText(p.lastUpdated, k, iso))
  {
    if writeOk then Some(JObj(SaveMembers(p.list, p.lastUpdated, iso))) else None
  }

  /** One saved source reads back as whatever its saved text parses to; an
      unlisted name reads back as none. */
  lemma SavedStampAt(list: seq<string>, lastUpdated: map<string, Time>, iso: Time -> string, parse: string -> Option<Time>, k: string)
    ensures StampOf(SaveMembers(list, lastUpdated, iso), k, parse)
      == if k in list then parse(StampText(lastUpdated, k, iso)) else None
  {
    var ms := SaveMembers(list, lastUpdated, iso);
    if k in list {
      assert Get(ms, k) == Some(JStr(StampText(lastUpdated, k, iso)));
    } else {
      assert Get(ms, k) == None;
    }
  }

  /** The timestamps of the listed sources. */
  function KnownStamps(list: seq<string>, lastUpdated: map<string, Time>): (m: map<string, Time>)
    ensures forall k :: k in m <==> k in list && k in lastUpdated
    ensures forall k :: k in m ==> m[k] == lastUpdated[k]
  {
    map k | k in list && k in lastUpdated :: lastUpdated[k]
  }

  lemma SavedStampEntry(list: seq<string>, lastUpdated: map<string, Time>, iso: Time -> string, parse: string -> Option<Time>, k: string)
    requires k in lastUpdated ==> parse(iso(lastUpdated[k])) == Some(lastUpdated[k])
    requires parse("") == None
    ensures var got := Stamps(SaveMembers(list, lastUpdated, iso), parse);
      && (k in got <==> k in KnownStamps(list, lastUpdated))
      && (k in got ==> got[k] == KnownStamps(list, lastUpdated)[k])
  {
    SavedStampAt(list, lastUpdated, iso, parse, k);
  }

  /** The timestamps read back from a saved object are those of the listed
      sources. */
  lemma SavedStamps(list: seq<string>, lastUpdated: map<string, Time>, iso: Time -> string, parse: string -> Option<Time>)
    requires forall t :: parse(iso(t)) == Some(t)
    requires parse("") == None
    ensures Stamps(SaveMembers(list, lastUpdated, iso), parse) == KnownStamps(list, lastUpdated)
  {
    var got := Stamps(SaveMembers(list, lastUpdated, iso), parse);
    var want := KnownStamps(list, lastUpdated);
    forall k ensures (k in got <==> k in want) && (k in got ==> got[k] == want[k]) {
      if k in lastUpdated {
        var t := lastUpdated[k];
        assert parse(iso(t)) == Some(t);
      }
      SavedStampEntry(list, lastUpdated, iso, parse, k);
    }
  }

  /** Saving and loading again restores the set of source names and the
      timestamps of the listed sources, given that the ISO formatter and
      parser invert each other and the empty text is not a date. */
  lemma SaveLoadRoundTrip(p: Panel, q: Panel, iso: Time -> string, parse: string -> Option<Time>)
    requires forall t :: parse(iso(t)) == Some(t)
    requires parse("") == None
    ensures var loaded := Load(q, Opened(Save(p, iso, true)), parse);
      && loaded.emitted.Some?
      && (forall k :: k in loaded.panel.list <==> k in p.list)
      && loaded.panel.lastUpdated == KnownStamps(p.list, p.lastUpdated)
  {
    SavedStamps(p.list, p.lastUpdated, iso, parse);
  }

  /** A timestamp recorded for a listed source survives a save and a load. */
  lemma StampSurvivesSave(p: Panel, subreddit: string, when: Time, iso: Time -> string, parse: string -> Option<Time>)
    requires forall t :: parse(iso(t)) == Some(t)
    requires parse("") == None
    requires subreddit != "" && subreddit in p.list
    ensures var loaded := Load(p, Opened(Save(SetLastUpdated(p, subreddit, when), iso, true)), parse);
      subreddit in loaded.panel.lastUpdated && loaded.panel.lastUpdated[subreddit] == when
  {
    SaveLoadRoundTrip(SetLastUpdated(p, subreddit, when), p, iso, parse);
  }
}
