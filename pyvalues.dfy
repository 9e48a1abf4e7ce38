/**
 * The Python values the utilities pass around: JSON-like trees of None, bools,
 * ints, floats (kept as the decimal `str()` prints), `Decimal`s, strings, lists
 * and dicts. A dict is its entries in insertion order, as Python keeps them.
 */
module PyValues {
  import opened Decimals
  import opened Wrappers

  datatype Py =
    | PyNone
    | PyBool(b: bool)
    | PyInt(i: int)
    | PyFloat(f: Dec)
    | PyDecimal(d: Dec)
    | PyStr(s: string)
    | PyList(items: seq<Py>)
    | PyDict(entries: seq<(string, Py)>)

  function Keys(entries: seq<(string, Py)>): (ks: seq<string>)
    ensures |ks| == |entries| && forall i :: 0 <= i < |ks| ==> ks[i] == entries[i].0
  {
    seq(|entries|, i requires 0 <= i < |entries| => entries[i].0)
  }

  /** No key occurs twice, as in every Python dict. */
  predicate DistinctKeys(entries: seq<(string, Py)>) {
    forall i, j :: 0 <= i < j < |entries| ==> entries[i].0 != entries[j].0
  }

  /** `d.get(key)`: the value stored under the key, if any. */
  function Lookup(entries: seq<(string, Py)>, key: string): (r: Option<Py>)
    ensures r.None? <==> key !in Keys(entries)
  {
    if |entries| == 0 then None
    else if entries[0].0 == key then Some(entries[0].1)
    else
      var r := Lookup(entries[1..], key);
      assert Keys(entries) == [entries[0].0] + Keys(entries[1..]);
      r
  }

  /** `d[key] = value`: an existing key keeps its place, a new one goes last. */
  function Store(entries: seq<(string, Py)>, key: string, value: Py): seq<(string, Py)> {
    if |entries| == 0 then [(key, value)]
    else if entries[0].0 == key then [(key, value)] + entries[1..]
    else [entries[0]] + Store(entries[1..], key, value)
  }

  /** An existing key keeps its place among the keys; a new one goes last. */
  lemma {:induction false} StoreKeys(entries: seq<(string, Py)>, key: string, value: Py)
    ensures Keys(Store(entries, key, value)) == if key in Keys(entries) then Keys(entries) else Keys(entries) + [key]
  {
    if |entries| > 0 {
      KeysCons(entries[0], entries[1..]);
      assert entries == [entries[0]] + entries[1..];
      if entries[0].0 == key {
        KeysCons((key, value), entries[1..]);
      } else {
        StoreKeys(entries[1..], key, value);
        KeysCons(entries[0], Store(entries[1..], key, value));
      }
    }
  }

  lemma KeysCons(e: (string, Py), rest: seq<(string, Py)>)
    ensures Keys([e] + rest) == [e.0] + Keys(rest)
  {
  }

  /** A lookup in a dict whose first entry is `e`. */
  lemma LookupCons(e: (string, Py), rest: seq<(string, Py)>, key: string)
    ensures Lookup([e] + rest, key) == if key == e.0 then Some(e.1) else Lookup(rest, key)
  {
    assert ([e] + rest)[0] == e && ([e] + rest)[1..] == rest;
  }

  /** After storing, the key holds the stored value. */
  lemma {:induction false} StoreLooksUp(entries: seq<(string, Py)>, key: string, value: Py)
    ensures Lookup(Store(entries, key, value), key) == Some(value)
  {
    if |entries| > 0 && entries[0].0 != key {
      StoreLooksUp(entries[1..], key, value);
      LookupCons(entries[0], Store(entries[1..], key, value), key);
    } else if |entries| > 0 {
      LookupCons((key, value), entries[1..], key);
    }
  }

  /** Storing under one key leaves every other key's value as it was. */
  lemma {:induction false} StoreKeepsOthers(entries: seq<(string, Py)>, key: string, value: Py, other: string)
    requires other != key
    ensures Lookup(Store(entries, key, value), other) == Lookup(entries, other)
  {
    if |entries| == 0 {
      LookupCons((key, value), [], other);
    } else if entries[0].0 == key {
      LookupCons((key, value), entries[1..], other);
      LookupCons(entries[0], entries[1..], other);
    } else {
      StoreKeepsOthers(entries[1..], key, value, other);
      LookupCons(entries[0], Store(entries[1..], key, value), other);
      LookupCons(entries[0], entries[1..], other);
    }
  }

  /** A dict literal of two entries. */
  lemma Literal2(a: (string, Py), b: (string, Py))
    requires a.0 != b.0
    ensures Keys([a, b]) == [a.0, b.0]
    ensures Lookup([a, b], a.0) == Some(a.1) && Lookup([a, b], b.0) == Some(b.1)
  {
    assert [a, b] == [a] + [b];
    LookupCons(a, [b], a.0);
    LookupCons(a, [b], b.0);
    LookupCons(b, [], b.0);
  }

  /** A dict literal of three entries. */
  lemma Literal3(a: (string, Py), b: (string, Py), c: (string, Py))
    requires a.0 != b.0 && a.0 != c.0 && b.0 != c.0
    ensures Keys([a, b, c]) == [a.0, b.0, c.0]
    ensures Lookup([a, b, c], a.0) == Some(a.1)
    ensures Lookup([a, b, c], b.0) == Some(b.1)
    ensures Lookup([a, b, c], c.0) == Some(c.1)
  {
    Literal2(b, c);
    assert [a, b, c] == [a] + [b, c];
    LookupCons(a, [b, c], a.0);
    LookupCons(a, [b, c], b.0);
    LookupCons(a, [b, c], c.0);
  }

  /** A key looks up the value of its first entry; with distinct keys, of its only one. */
  lemma {:induction false} LookupFirst(entries: seq<(string, Py)>, i: nat)
    requires i < |entries| && forall j :: 0 <= j < i ==> entries[j].0 != entries[i].0
    ensures Lookup(entries, entries[i].0) == Some(entries[i].1)
  {
    if i > 0 {
      LookupFirst(entries[1..], i - 1);
    }
  }

  /** Storing under a key overwrites its first entry where it stands. */
  lemma {:induction false} StoreExisting(entries: seq<(string, Py)>, i: nat, value: Py)
    requires i < |entries| && forall j :: 0 <= j < i ==> entries[j].0 != entries[i].0
    ensures Store(entries, entries[i].0, value) == entries[i := (entries[i].0, value)]
  {
    var key := entries[i].0;
    if i == 0 {
      assert Store(entries, key, value) == [(key, value)] + entries[1..];
      assert [(key, value)] + entries[1..] == entries[0 := (key, value)];
    } else {
      var rest := entries[1..];
      assert rest[i - 1] == entries[i];
      assert forall j :: 0 <= j < i - 1 ==> rest[j].0 != rest[i - 1].0 by {
        forall j | 0 <= j < i - 1
          ensures rest[j].0 != rest[i - 1].0
        {
          assert rest[j] == entries[j + 1];
        }
      }
      StoreExisting(rest, i - 1, value);
      assert entries[0].0 != key;
      assert Store(entries, key, value) == [entries[0]] + Store(rest, key, value);
      var updated := [entries[0]] + rest[i - 1 := (key, value)];
      forall k | 0 <= k < |updated|
        ensures updated[k] == entries[i := (key, value)][k]
      {
        if k > 0 {
          assert updated[k] == rest[i - 1 := (key, value)][k - 1];
        }
      }
      assert updated == entries[i := (key, value)];
    }
  }
}
