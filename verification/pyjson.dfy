/**
  A value as Python's `json` module hands it to the monitor, and the few Python
  operations the monitor applies to such values. Every operation returns `None`
  exactly where Python would raise (KeyError, IndexError, TypeError or
  AttributeError); the monitor catches all of these alike.
 */
module PyJson {
  import opened Options

  /** A decoded JSON value. An object keeps its entries in the order of the
      text; when a key is repeated, Python's decoder keeps the last value, so a
      lookup takes the last entry with the key. */
  datatype Json =
    | JNull
    | JBool(b: bool)
    | JNumber(n: real)
    | JString(s: string)
    | JArray(items: seq<Json>)
    | JObject(entries: seq<(string, Json)>)

  function Lookup(entries: seq<(string, Json)>, key: string): Option<Json>
  {
    if entries == [] then None
    else if entries[|entries| - 1].0 == key then Some(entries[|entries| - 1].1)
    else Lookup(entries[..|entries| - 1], key)
  }

  /** `v[key]` with a string key: only a dict can be indexed by a string. */
  function Field(v: Json, key: string): Option<Json>
  {
    match v
    case JObject(entries) => Lookup(entries, key)
    case _ => None
  }

  /** `v.get(key, default)`: only a dict has a `get` method. */
  function FieldOr(v: Json, key: string, default: Json): Option<Json>
  {
    match v
    case JObject(entries) =>
      (match Lookup(entries, key) case Some(x) => Some(x) case None => Some(default))
    case _ => None
  }

  /** The keys of a decoded dict: every key of `entries` once, in the order of
      its first occurrence, as a Python dict keeps them when a key repeats. */
  function Keys(entries: seq<(string, Json)>): (keys: seq<string>)
    ensures forall key :: key in keys <==> Lookup(entries, key).Some?
    ensures forall i, j :: 0 <= i < j < |keys| ==> keys[i] != keys[j]
  {
    if entries == [] then []
    else
      var earlier := Keys(entries[..|entries| - 1]);
      if entries[|entries| - 1].0 in earlier then earlier else earlier + [entries[|entries| - 1].0]
  }

  /** Keys keep their first-occurrence order: the keys of a prefix of the
      entries are a prefix of the keys of all of them, so a later entry never
      moves or reorders a key already seen. */
  lemma {:induction false} KeysKeepFirstOrder(entries: seq<(string, Json)>, p: nat)
    requires p <= |entries|
    ensures Keys(entries[..p]) <= Keys(entries)
    decreases |entries|
  {
    if p < |entries| {
      var n := |entries|;
      assert entries[..n - 1][..p] == entries[..p];
      KeysKeepFirstOrder(entries[..n - 1], p);
    } else {
      assert entries[..p] == entries;
    }
  }

  /** `len(v)`: lists, strings and dicts have a length; a dict counts its keys. */
  function Len(v: Json): Option<nat>
  {
    match v
    case JArray(items) => Some(|items|)
    case JString(s) => Some(|s|)
    case JObject(entries) => Some(|Keys(entries)|)
    case _ => None
  }

  /** `v[i]` for an index `i >= 0`: a list gives its element, a string its
      one-character substring; a dict has no integer keys once decoded. */
  function At(v: Json, i: nat): Option<Json>
  {
    match v
    case JArray(items) => if i < |items| then Some(items[i]) else None
    case JString(s) => if i < |s| then Some(JString([s[i]])) else None
    case _ => None
  }

  /** `v[1:]`: slicing never fails on a list or a string. */
  function Tail(v: Json): Option<Json>
  {
    match v
    case JArray(items) => Some(JArray(if items == [] then [] else items[1..]))
    case JString(s) => Some(JString(if s == [] then [] else s[1..]))
    case _ => None
  }

  /** `for x in v`: a list yields its elements, a string its characters and a
      dict each of its keys once. */
  function Elements(v: Json): Option<seq<Json>>
  {
    match v
    case JArray(items) => Some(items)
    case JString(s) => Some(seq(|s|, i requires 0 <= i < |s| => JString([s[i]])))
    case JObject(entries) =>
      var keys := Keys(entries);
      Some(seq(|keys|, i requires 0 <= i < |keys| => JString(keys[i])))
    case _ => None
  }

  /** A dict decoded from text that repeats a key is iterated with that key
      once, in the place it first appeared. */
  lemma RepeatedKeyIteratedOnce()
    ensures Elements(JObject([("12", JNull), ("34", JNull), ("12", JBool(true))])) == Some([JString("12"), JString("34")])
    ensures Len(JObject([("12", JNull), ("34", JNull), ("12", JBool(true))])) == Some(2)
  {
    var entries := [("12", JNull), ("34", JNull), ("12", JBool(true))];
    assert entries[..2] == [("12", JNull), ("34", JNull)];
    assert entries[..2][..1] == [("12", JNull)];
    assert entries[..2][..1][..0] == [];
    assert Keys(entries[..2][..1]) == ["12"];
    assert Keys(entries[..2]) == ["12", "34"];
    assert Keys(entries) == ["12", "34"];
    var iterated := Elements(JObject(entries)).value;
    assert |iterated| == 2 && iterated[0] == JString("12") && iterated[1] == JString("34");
    assert iterated == [JString("12"), JString("34")];
  }

  /** `v` has a first and a second component, so `v[0]` and `v[1]` both succeed. */
  predicate PairLike(v: Json)
    ensures PairLike(v) <==> At(v, 0).Some? && At(v, 1).Some?
  {
    (v.JArray? && |v.items| >= 2) || (v.JString? && |v.s| >= 2)
  }
}
