/**
 * `TinyRecord<K, V>` (hybrid/utils/tinyrecord.h): a map kept as a vector of
 * key/value pairs in insertion order, searched linearly from the front.
 */
module TinyRecordMap {
  import opened Wrappers

  /** Position of the first entry with key `key`, or `|d|` (the `end()`
      iterator) when there is none. */
  function IndexOf<K(==), V>(d: seq<(K, V)>, key: K): (i: nat)
    ensures i <= |d|
    ensures i < |d| ==> d[i].0 == key
    ensures forall j :: 0 <= j < i ==> d[j].0 != key
  {
    if d == [] then 0
    else if d[0].0 == key then 0
    else 1 + IndexOf(d[1..], key)
  }

  /** The first match is the only index with these three properties. */
  lemma IndexOfUnique<K, V>(d: seq<(K, V)>, key: K, i: nat)
    requires i <= |d| && (i < |d| ==> d[i].0 == key)
    requires forall j :: 0 <= j < i ==> d[j].0 != key
    ensures i == IndexOf(d, key)
  {
  }

  /** The value of the first entry with key `key`, if any. */
  function Lookup<K(==), V>(d: seq<(K, V)>, key: K): (r: Option<V>)
    ensures r.Some? <==> exists j :: 0 <= j < |d| && d[j].0 == key
    ensures r.Some? ==> (key, r.value) in d
  {
    var i := IndexOf(d, key);
    if i < |d| then Some(d[i].1) else None
  }

  function Keys<K, V>(d: seq<(K, V)>): (ks: seq<K>)
    ensures |ks| == |d|
  {
    seq(|d|, i requires 0 <= i < |d| => d[i].0)
  }

  /** No key is stored twice. */
  ghost predicate UniqueKeys<K, V>(d: seq<(K, V)>)
  {
    forall i, j :: 0 <= i < j < |d| ==> d[i].0 != d[j].0
  }

  /** The entries after `insert(key, value)`: an absent key is appended, a
      present one has its value overwritten where it stands. */
  function Inserted<K(==), V>(d: seq<(K, V)>, key: K, value: V): (r: seq<(K, V)>)
    ensures |r| == |d| + (if Lookup(d, key).None? then 1 else 0)
  {
    var i := IndexOf(d, key);
    if i == |d| then d + [(key, value)] else d[i := (key, value)]
  }

  /** The search depends on the keys only. */
  lemma IndexOfSameKeys<K, V>(d: seq<(K, V)>, e: seq<(K, V)>, key: K)
    requires Keys(d) == Keys(e)
    ensures IndexOf(d, key) == IndexOf(e, key)
  {
    var i := IndexOf(d, key);
    forall j | 0 <= j <= i && j < |e|
      ensures e[j].0 == d[j].0
    {
      assert Keys(d)[j] == Keys(e)[j];
    }
    IndexOfUnique(e, key, i);
  }

  /** Searching after an appended entry. */
  lemma IndexOfAppend<K, V>(d: seq<(K, V)>, e: (K, V), key: K)
    ensures IndexOf(d + [e], key) ==
      if IndexOf(d, key) < |d| then IndexOf(d, key) else if e.0 == key then |d| else |d| + 1
  {
    var i := IndexOf(d, key);
    var i' := if i < |d| then i else if e.0 == key then |d| else |d| + 1;
    forall j | 0 <= j < i'
      ensures (d + [e])[j].0 != key
    {
      if j < |d| {
        assert (d + [e])[j] == d[j];
      }
    }
    IndexOfUnique(d + [e], key, i');
  }

  /** After `insert(key, value)`, `at(key)` is `value` and every other key
      keeps its value (or its absence). */
  lemma LookupInserted<K, V>(d: seq<(K, V)>, key: K, value: V, other: K)
    ensures Lookup(Inserted(d, key, value), key) == Some(value)
    ensures other != key ==> Lookup(Inserted(d, key, value), other) == Lookup(d, other)
  {
    var r := Inserted(d, key, value);
    var i := IndexOf(d, key);
    if i == |d| {
      IndexOfAppend(d, (key, value), key);
      IndexOfAppend(d, (key, value), other);
    } else {
      assert Keys(r) == Keys(d);
      IndexOfSameKeys(r, d, key);
      IndexOfSameKeys(r, d, other);
    }
  }

  /** Inserting keeps the keys unique and in first-insertion order: a new key
      goes to the end, an existing one stays where it is. */
  lemma InsertedKeys<K, V>(d: seq<(K, V)>, key: K, value: V)
    ensures Keys(Inserted(d, key, value)) == Keys(d) + (if Lookup(d, key).None? then [key] else [])
    ensures UniqueKeys(d) ==> UniqueKeys(Inserted(d, key, value))
  {
    var r := Inserted(d, key, value);
    if IndexOf(d, key) == |d| {
      assert Keys(r) == Keys(d) + [key];
    } else {
      assert Keys(r) == Keys(d);
    }
  }

  /** With unique keys, a key is found with a value exactly when that pair is
      stored. */
  lemma LookupUnique<K, V>(d: seq<(K, V)>, key: K, value: V)
    requires UniqueKeys(d)
    ensures Lookup(d, key) == Some(value) <==> (key, value) in d
  {
    if (key, value) in d {
      var j :| 0 <= j < |d| && d[j] == (key, value);
      IndexOfUnique(d, key, j);
    }
  }

  /** With unique keys the entry count is the number of distinct keys. */
  lemma {:induction false} DistinctKeyCount<K, V>(d: seq<(K, V)>)
    requires UniqueKeys(d)
    ensures |set k | k in Keys(d)| == |d|
  {
    if d != [] {
      var p := d[..|d| - 1];
      var last := d[|d| - 1].0;
      assert UniqueKeys(p);
      DistinctKeyCount(p);
      assert Keys(d) == Keys(p) + [last];
      assert last !in Keys(p);
      assert (set k | k in Keys(d)) == (set k | k in Keys(p)) + {last};
    }
  }

  class TinyRecord<K(==), V> {
    /** `_data`. */
    var data: seq<(K, V)>

    constructor ()
      ensures data == []
    {
      data := [];
    }

    /** `find(key)`: the first entry with the key, or `|data|` for `end()`. */
    method Find(key: K) returns (idx: nat)
      ensures idx <= |data|
      ensures idx < |data| ==> data[idx].0 == key
      ensures forall j :: 0 <= j < idx ==> data[j].0 != key
      ensures idx == IndexOf(data, key)
    {
      idx := 0;
      while idx < |data| && data[idx].0 != key
        invariant 0 <= idx <= |data|
        invariant forall j :: 0 <= j < idx ==> data[j].0 != key
      {
        idx := idx + 1;
      }
      IndexOfUnique(data, key, idx);
    }

    /** `insert(key, value)`. */
    method Insert(key: K, value: V)
      modifies this
      ensures data == Inserted(old(data), key, value)
      ensures Lookup(data, key) == Some(value)
      ensures forall k :: k != key ==> Lookup(data, k) == Lookup(old(data), k)
      ensures UniqueKeys(old(data)) ==> UniqueKeys(data)
    {
      ghost var d := data;
      var it := Find(key);
      if it == |data| {
        data := data + [(key, value)];
      } else {
        data := data[it := (key, value)];
      }
      LookupInserted(d, key, value, key);
      InsertedKeys(d, key, value);
      forall k | k != key
        ensures Lookup(data, k) == Lookup(d, k)
      {
        LookupInserted(d, key, value, k);
      }
    }

    /** `at(key)` read: the stored value, or `out_of_range` when the key is
        absent. */
    method At(key: K) returns (r: Result<V, string>)
      ensures r.Ok? <==> Lookup(data, key).Some?
      ensures r.Ok? ==> Lookup(data, key) == Some(r.value)
      ensures r.Err? ==> r.error == "record name does not exist"
    {
      var it := Find(key);
      if it == |data| {
        return Err("record name does not exist");
      }
      r := Ok(data[it].1);
    }

    /** `at(key)` written through: the found entry gets `value`, or
        `out_of_range` is thrown and nothing changes. */
    method AssignAt(key: K, value: V) returns (r: Result<(), string>)
      modifies this
      ensures r.Ok? <==> Lookup(old(data), key).Some?
      ensures r.Ok? ==> data == Inserted(old(data), key, value)
      ensures r.Err? ==> data == old(data) && r.error == "record name does not exist"
    {
      var it := Find(key);
      if it == |data| {
        return Err("record name does not exist");
      }
      data := data[it := (key, value)];
      r := Ok(());
    }

    /** `size()`: the entry count, which is the number of distinct keys as
        long as keys are unique. */
    method Size() returns (n: nat)
      ensures n == |data|
      ensures UniqueKeys(data) ==> n == |set k | k in Keys(data)|
    {
      n := |data|;
      if UniqueKeys(data) {
        DistinctKeyCount(data);
      }
    }

    /** `clear()`. */
    method Clear()
      modifies this
      ensures data == []
    {
      data := [];
    }
  }
}
