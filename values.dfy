/**
 * The Python values that flow out of the geolocation lookup and into the
 * serialised events: `None`, booleans, integers, floats, strings, lists and
 * dictionaries (kept in insertion order).
 */
module Values {
  import opened Wrappers

  /** A Python float: a finite value, an infinity or a NaN. */
  datatype Float = Finite(r: real) | Infinite(negative: bool) | NaN

  datatype Value =
    | Null
    | Bool(b: bool)
    | Int(i: int)
    | Num(f: Float)
    | Str(s: string)
    | List(items: seq<Value>)
    | Dict(entries: seq<(string, Value)>)

  /** The keys of a dictionary, in order. */
  function Keys(entries: seq<(string, Value)>): (r: seq<string>)
    ensures |r| == |entries| && forall i :: 0 <= i < |entries| ==> r[i] == entries[i].0
  {
    if entries == [] then [] else [entries[0].0] + Keys(entries[1..])
  }

  /** The keys are read off the entries one by one. */
  lemma KeysAre(entries: seq<(string, Value)>, keys: seq<string>)
    requires |keys| == |entries| && forall i :: 0 <= i < |entries| ==> entries[i].0 == keys[i]
    ensures Keys(entries) == keys
  {
  }

  /** `d.get(key)` on a dictionary's entries: the first entry with that key. */
  function Get(entries: seq<(string, Value)>, key: string): Option<Value>
  {
    if entries == [] then None
    else if entries[0].0 == key then Some(entries[0].1)
    else Get(entries[1..], key)
  }

  /** `get` finds a value exactly for the keys present, and the value it finds is stored under that key. */
  lemma {:induction false} GetFinds(entries: seq<(string, Value)>, key: string)
    ensures Get(entries, key).Some? <==> key in Keys(entries)
    ensures Get(entries, key).Some? ==> (key, Get(entries, key).value) in entries
  {
    if entries != [] {
      GetFinds(entries[1..], key);
      assert Keys(entries) == [entries[0].0] + Keys(entries[1..]);
    }
  }

  /** A list of strings. */
  function Strs(items: seq<string>): (r: Value)
    ensures r.List? && |r.items| == |items|
    ensures forall i :: 0 <= i < |items| ==> r.items[i] == Str(items[i])
  {
    if items == [] then List([]) else List([Str(items[0])] + Strs(items[1..]).items)
  }

  /** The first entry with a key is the one `get` finds. */
  lemma {:induction false} GetAt(entries: seq<(string, Value)>, i: nat, key: string)
    requires i < |entries| && entries[i].0 == key
    requires forall j :: 0 <= j < i ==> entries[j].0 != key
    ensures Get(entries, key) == Some(entries[i].1)
  {
    if i > 0 {
      GetAt(entries[1..], i - 1, key);
    }
  }
}
