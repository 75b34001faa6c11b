/**
 * `KeyValueStorage` of src/line/hash_like.rs: a vector of key/value pairs
 * used as a small map. Lookup is a linear search for the first pair with the
 * key; adding a pair overwrites the value of an existing key in place and
 * otherwise appends.
 */
module KeyValueStorage {
  import opened Wrappers
  import opened Keys

  datatype KeyValuePair<V> = KeyValuePair(key: KeyName, value: V)

  /** The position of the first pair with `key`, if any. */
  function FindIndex<V>(s: seq<KeyValuePair<V>>, key: KeyName): (r: Option<nat>)
    ensures r.Some? ==> r.value < |s| && s[r.value].key == key
    ensures r.Some? ==> forall j :: 0 <= j < r.value ==> s[j].key != key
    ensures r.None? <==> forall j :: 0 <= j < |s| ==> s[j].key != key
    decreases |s|
  {
    if s == [] then None
    else if s[0].key == key then Some(0)
    else
      match FindIndex(s[1..], key)
      case None => None
      case Some(i) => Some(i + 1)
  }

  /** The value of the first pair whose key reads `name`, as `get` finds it. */
  function LookupIn<V>(s: seq<KeyValuePair<V>>, name: string): (r: Option<V>)
    ensures r.None? <==> forall j :: 0 <= j < |s| ==> s[j].key.name != name
    ensures r.Some? ==> exists j :: 0 <= j < |s| && s[j].key.name == name && s[j].value == r.value
                                  && forall i :: 0 <= i < j ==> s[i].key.name != name
    decreases |s|
  {
    if s == [] then None
    else if s[0].key.name == name then Some(s[0].value)
    else
      var r := LookupIn(s[1..], name);
      if r.Some? then
        FirstMatchShifts(s, name, r.value);
        r
      else r
  }

  /** A first match in the tail is a first match of the whole when the head does not match. */
  lemma FirstMatchShifts<V>(s: seq<KeyValuePair<V>>, name: string, v: V)
    requires s != [] && s[0].key.name != name
    requires exists j :: 0 <= j < |s[1..]| && s[1..][j].key.name == name && s[1..][j].value == v
                       && forall i :: 0 <= i < j ==> s[1..][i].key.name != name
    ensures exists j :: 0 <= j < |s| && s[j].key.name == name && s[j].value == v
                      && forall i :: 0 <= i < j ==> s[i].key.name != name
  {
    var j :| 0 <= j < |s[1..]| && s[1..][j].key.name == name && s[1..][j].value == v
             && forall i :: 0 <= i < j ==> s[1..][i].key.name != name;
    assert s[j + 1] == s[1..][j];
    assert forall i :: 0 <= i < j + 1 ==> s[i].key.name != name by {
      forall i | 0 <= i < j + 1 ensures s[i].key.name != name {
        if i > 0 {
          assert s[i] == s[1..][i - 1];
        }
      }
    }
  }

  /** The storage after `add(pair)`: an existing key gets the new value in place, a new key goes last. */
  function Upsert<V>(s: seq<KeyValuePair<V>>, pair: KeyValuePair<V>): seq<KeyValuePair<V>> {
    match FindIndex(s, pair.key)
    case Some(i) => s[i := KeyValuePair(s[i].key, pair.value)]
    case None => s + [pair]
  }

  /** No key occurs twice. */
  predicate UniqueKeys<V>(s: seq<KeyValuePair<V>>) {
    forall i, j :: 0 <= i < j < |s| ==> s[i].key != s[j].key
  }

  class KeyValueStorage<V> {
    var storage: seq<KeyValuePair<V>>

    /** `new`: no pairs. */
    constructor ()
      ensures storage == []
    {
      storage := [];
    }

    /** `from_iter`: the pairs in the order given, duplicates kept. */
    constructor FromIter(pairs: seq<(KeyName, V)>)
      ensures |storage| == |pairs|
      ensures forall i :: 0 <= i < |pairs| ==> storage[i] == KeyValuePair(pairs[i].0, pairs[i].1)
    {
      storage := seq(|pairs|, i requires 0 <= i < |pairs| => KeyValuePair(pairs[i].0, pairs[i].1));
    }

    /** `is_empty`. */
    function IsEmpty(): (r: bool)
      reads this
      ensures r <==> |storage| == 0
    {
      storage == []
    }

    /** `iter`: the keys and values in storage order. */
    function Iter(): (r: seq<(KeyName, V)>)
      reads this
      ensures |r| == |storage|
      ensures forall i :: 0 <= i < |r| ==> r[i] == (storage[i].key, storage[i].value)
    {
      seq(|storage|, i reads this requires 0 <= i < |storage| => (storage[i].key, storage[i].value))
    }

    /**
     * `add`: search for the key; overwrite its value and report false, or
     * append the pair and report true.
     */
    method Add(pair: KeyValuePair<V>) returns (inserted: bool)
      modifies this
      ensures storage == Upsert(old(storage), pair)
      ensures inserted <==> FindIndex(old(storage), pair.key).None?
    {
      var i := 0;
      while i < |storage|
        invariant 0 <= i <= |storage|
        invariant storage == old(storage)
        invariant forall j :: 0 <= j < i ==> storage[j].key != pair.key
      {
        if storage[i].key == pair.key {
          assert FindIndex(storage, pair.key) == Some(i) by {
            FindIndexIs(storage, pair.key, i);
          }
          storage := storage[i := KeyValuePair(storage[i].key, pair.value)];
          return false;
        }
        i := i + 1;
      }
      storage := storage + [pair];
      return true;
    }

    /** `put(key, value)`: `add` of the pair. */
    method Put(key: KeyName, value: V) returns (inserted: bool)
      modifies this
      ensures storage == Upsert(old(storage), KeyValuePair(key, value))
      ensures inserted <==> FindIndex(old(storage), key).None?
    {
      inserted := Add(KeyValuePair(key, value));
    }

    /** `get(name)`: the value of the first pair whose key reads `name`. */
    function Get(name: string): (r: Option<V>)
      reads this
      ensures r == LookupIn(storage, name)
    {
      LookupIn(storage, name)
    }
  }

  /** The first position holding the key is what `FindIndex` finds. */
  lemma FindIndexIs<V>(s: seq<KeyValuePair<V>>, key: KeyName, i: nat)
    requires i < |s| && s[i].key == key
    requires forall j :: 0 <= j < i ==> s[j].key != key
    ensures FindIndex(s, key) == Some(i)
  {
  }

  /** A new key is appended at the end: one more pair, the old ones unchanged. */
  lemma UpsertNew<V>(s: seq<KeyValuePair<V>>, pair: KeyValuePair<V>)
    requires FindIndex(s, pair.key).None?
    ensures Upsert(s, pair) == s + [pair]
    ensures |Upsert(s, pair)| == |s| + 1
  {
  }

  /**
   * An existing key gets the new value at its own position: same length, same
   * keys in the same order, every other pair unchanged.
   */
  lemma UpsertExisting<V>(s: seq<KeyValuePair<V>>, pair: KeyValuePair<V>)
    requires FindIndex(s, pair.key).Some?
    ensures var i := FindIndex(s, pair.key).value;
      && |Upsert(s, pair)| == |s|
      && Upsert(s, pair)[i] == KeyValuePair(pair.key, pair.value)
      && (forall j :: 0 <= j < |s| ==> Upsert(s, pair)[j].key == s[j].key)
      && (forall j :: 0 <= j < |s| && j != i ==> Upsert(s, pair)[j] == s[j])
  {
  }

  /** What was stored before stays at the same position with the same key. */
  lemma UpsertKeepsOrder<V>(s: seq<KeyValuePair<V>>, pair: KeyValuePair<V>)
    ensures |s| <= |Upsert(s, pair)| <= |s| + 1
    ensures forall j :: 0 <= j < |s| ==> Upsert(s, pair)[j].key == s[j].key
  {
  }

  /** After `put(k, v)`, `get` of k's name gives v. */
  lemma GetAfterPut<V>(s: seq<KeyValuePair<V>>, pair: KeyValuePair<V>)
    ensures LookupIn(Upsert(s, pair), pair.key.name) == Some(pair.value)
  {
    var t := Upsert(s, pair);
    match FindIndex(s, pair.key)
    case Some(i) =>
      assert t[i].key.name == pair.key.name;
      assert forall j :: 0 <= j < i ==> t[j].key.name != pair.key.name by {
        forall j | 0 <= j < i ensures t[j].key.name != pair.key.name {
          assert t[j] == s[j];
          assert s[j].key != pair.key;
        }
      }
      LookupIs(t, pair.key.name, i);
    case None =>
      assert forall j :: 0 <= j < |s| ==> t[j].key.name != pair.key.name by {
        forall j | 0 <= j < |s| ensures t[j].key.name != pair.key.name {
          assert t[j] == s[j];
          assert s[j].key != pair.key;
        }
      }
      LookupIs(t, pair.key.name, |s|);
  }

  /** The first position whose key reads `name` is the one `LookupIn` reads. */
  lemma {:induction false} LookupIs<V>(s: seq<KeyValuePair<V>>, name: string, i: nat)
    requires i < |s| && s[i].key.name == name
    requires forall j :: 0 <= j < i ==> s[j].key.name != name
    ensures LookupIn(s, name) == Some(s[i].value)
    decreases i
  {
    if i > 0 {
      assert s[1..][i - 1] == s[i];
      assert forall j :: 0 <= j < i - 1 ==> s[1..][j].key.name != name by {
        forall j | 0 <= j < i - 1 ensures s[1..][j].key.name != name {
          assert s[1..][j] == s[j + 1];
        }
      }
      LookupIs(s[1..], name, i - 1);
    }
  }

  /** A `put` leaves `get` of every other name as it was. */
  lemma GetOtherAfterPut<V>(s: seq<KeyValuePair<V>>, pair: KeyValuePair<V>, name: string)
    requires name != pair.key.name
    ensures LookupIn(Upsert(s, pair), name) == LookupIn(s, name)
  {
    var t := Upsert(s, pair);
    assert forall j :: 0 <= j < |s| ==> t[j].key.name == name ==> t[j] == s[j];
    if LookupIn(s, name).Some? {
      var j :| 0 <= j < |s| && s[j].key.name == name && s[j].value == LookupIn(s, name).value
               && forall i :: 0 <= i < j ==> s[i].key.name != name;
      LookupIs(t, name, j);
    } else {
      assert forall j :: 0 <= j < |t| ==> t[j].key.name != name by {
        forall j | 0 <= j < |t| ensures t[j].key.name != name {
          if j < |s| {
            assert t[j].key == s[j].key;
          } else {
            assert t[j] == pair;
          }
        }
      }
    }
  }

  /** A `put` keeps the keys unique if they were. */
  lemma UpsertKeepsUnique<V>(s: seq<KeyValuePair<V>>, pair: KeyValuePair<V>)
    requires UniqueKeys(s)
    ensures UniqueKeys(Upsert(s, pair))
  {
  }
}
