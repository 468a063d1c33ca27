/** A JSON document tree and the accessors the program applies to it.

    An object is the ordered list of its members, as the parser presents
    them; lookup takes the first member with the key, and assignment
    replaces that key's members in place or appends a new member, which is
    what both `QJsonObject::operator[]` and Python's `dict.__setitem__`
    do on documents whose keys are distinct. */
module Json {
  import opened Wrappers

  datatype Json =
    | JNull
    | JBool(b: bool)
    | JNum(n: int)
    | JStr(s: string)
    | JArr(items: seq<Json>)
    | JObj(members: seq<(string, Json)>)

  type Members = seq<(string, Json)>

  /** The keys of an object, in member order. */
  function Keys(ms: Members): (ks: seq<string>)
    ensures |ks| == |ms|
    ensures forall i :: 0 <= i < |ms| ==> ks[i] == ms[i].0
  {
    seq(|ms|, i requires 0 <= i < |ms| => ms[i].0)
  }

  predicate HasKey(ms: Members, key: string) {
    key in Keys(ms)
  }

  /** The value of the first member named `key`, if there is one. */
  function Get(ms: Members, key: string): (r: Option<Json>)
    ensures r.Some? <==> HasKey(ms, key)
    ensures r.Some? ==> exists i :: 0 <= i < |ms| && ms[i] == (key, r.value)
    decreases |ms|
  {
    if |ms| == 0 then None
    else if ms[0].0 == key then Some(ms[0].1)
    else
      assert Keys(ms) == [ms[0].0] + Keys(ms[1..]);
      var r := Get(ms[1..], key);
      assert r.Some? ==> exists i :: 0 <= i < |ms| && ms[i] == (key, r.value) by {
        if r.Some? {
          var i :| 0 <= i < |ms[1..]| && ms[1..][i] == (key, r.value);
          assert ms[i + 1] == (key, r.value);
        }
      }
      r
  }

  /** Every member named `key` gets the value `v`; the others stay as they are. */
  function Replace(ms: Members, key: string, v: Json): (r: Members)
    ensures |r| == |ms|
    ensures Keys(r) == Keys(ms)
    ensures forall i :: 0 <= i < |ms| ==> r[i] == (if ms[i].0 == key then (key, v) else ms[i])
  {
    seq(|ms|, i requires 0 <= i < |ms| => if ms[i].0 == key then (key, v) else ms[i])
  }

  /** Assignment `obj[key] = v`. */
  function Set(ms: Members, key: string, v: Json): (r: Members)
    ensures HasKey(ms, key) ==> Keys(r) == Keys(ms)
    ensures !HasKey(ms, key) ==> Keys(r) == Keys(ms) + [key]
  {
    if HasKey(ms, key) then Replace(ms, key, v) else ms + [(key, v)]
  }

  lemma {:induction false} GetReplace(ms: Members, key: string, v: Json, k: string)
    ensures Get(Replace(ms, key, v), k) == (if k == key && HasKey(ms, key) then Some(v) else Get(ms, k))
    decreases |ms|
  {
    if |ms| > 0 {
      var r := Replace(ms, key, v);
      assert r[1..] == Replace(ms[1..], key, v);
      assert Keys(ms) == [ms[0].0] + Keys(ms[1..]);
      GetReplace(ms[1..], key, v, k);
    }
  }

  lemma {:induction false} GetAppend(ms: Members, key: string, v: Json, k: string)
    ensures Get(ms + [(key, v)], k) == (if HasKey(ms, k) then Get(ms, k) else if k == key then Some(v) else None)
    decreases |ms|
  {
    if |ms| > 0 {
      assert (ms + [(key, v)])[1..] == ms[1..] + [(key, v)];
      assert Keys(ms) == [ms[0].0] + Keys(ms[1..]);
      GetAppend(ms[1..], key, v, k);
    } else {
      assert (ms + [(key, v)])[1..] == [];
    }
  }

  /** After `obj[key] = v`, reading `key` gives `v` and every other key reads
      as before. */
  lemma GetSet(ms: Members, key: string, v: Json, k: string)
    ensures Get(Set(ms, key, v), k) == (if k == key then Some(v) else Get(ms, k))
  {
    if HasKey(ms, key) {
      GetReplace(ms, key, v, k);
    } else {
      GetAppend(ms, key, v, k);
    }
  }

  /** The whole-object form of `GetSet`. */
  lemma GetSetAll(ms: Members, key: string, v: Json)
    ensures Get(Set(ms, key, v), key) == Some(v)
    ensures forall k :: k != key ==> Get(Set(ms, key, v), k) == Get(ms, k)
  {
    GetSet(ms, key, v, key);
    forall k | k != key ensures Get(Set(ms, key, v), k) == Get(ms, k) {
      GetSet(ms, key, v, k);
    }
  }

  /** Assigning the same value twice is the same as assigning it once. */
  lemma SetSetSame(ms: Members, key: string, v: Json)
    ensures Set(Set(ms, key, v), key, v) == Set(ms, key, v)
  {
    var once := Set(ms, key, v);
    assert HasKey(once, key) by {
      assert Keys(once)[|Keys(once)| - 1] == key || HasKey(ms, key);
    }
    var twice := Replace(once, key, v);
    assert twice == once by {
      assert |twice| == |once|;
      forall i | 0 <= i < |once| ensures twice[i] == once[i] {
        if once[i].0 == key && HasKey(ms, key) {
          assert once[i] == (key, v);
        }
      }
    }
  }

  // ---- Qt `QJsonValue` conversions (a missing member reads as Null) ----

  /** `obj.value(key)`: the member's value, or Null when absent. */
  function Field(ms: Members, key: string): Json {
    Get(ms, key).GetOr(JNull)
  }

  /** A decoded object as a finite map; the first member with a key wins. */
  function ToMap(ms: Members): (m: map<string, Json>)
    ensures forall k :: k in m <==> HasKey(ms, k)
    ensures forall k :: k in m ==> Get(ms, k) == Some(m[k])
  {
    map k | k in Keys(ms) :: Get(ms, k).value
  }

  /** `toObject()`: the members of an object, none for any other value. */
  function ToObject(j: Json): Members {
    if j.JObj? then j.members else []
  }

  /** `toArray()`: the items of an array, none for any other value. */
  function ToArray(j: Json): seq<Json> {
    if j.JArr? then j.items else []
  }

  /** `toString()`: the text of a string, empty for any other value. */
  function ToStr(j: Json): string {
    if j.JStr? then j.s else ""
  }

  /** `toBool(default)`: the value of a boolean, `default` for any other value. */
  function ToBool(j: Json, default: bool): bool {
    if j.JBool? then j.b else default
  }

  // ---- Python views of a decoded document ----

  /** Python truthiness of a decoded JSON value. */
  predicate Truthy(j: Json) {
    match j
    case JNull => false
    case JBool(b) => b
    case JNum(n) => n != 0
    case JStr(s) => s != ""
    case JArr(items) => |items| > 0
    case JObj(ms) => |ms| > 0
  }

  /** `d.get(key, default)` on a decoded object. */
  function PyGet(ms: Members, key: string, default: Json): Json {
    Get(ms, key).GetOr(default)
  }
}
