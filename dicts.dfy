/**
 * Python dictionaries whose iteration order the core observes: association
 * lists in insertion order.
 */
module Dicts {
  import opened Wrappers
  import Seqs

  type Dict<V> = seq<(string, V)>

  ghost predicate DistinctKeys<V>(d: Dict<V>)
  {
    forall i, j :: 0 <= i < j < |d| ==> d[i].0 != d[j].0
  }

  predicate HasKey<V>(d: Dict<V>, key: string)
  {
    exists i :: 0 <= i < |d| && d[i].0 == key
  }

  /** `d.get(key, default)` */
  function DictGet<V>(d: Dict<V>, key: string, default: V): (r: V)
    ensures !HasKey(d, key) ==> r == default
    ensures DistinctKeys(d) ==> forall i :: 0 <= i < |d| && d[i].0 == key ==> r == d[i].1
  {
    if d == [] then default
    else if d[0].0 == key then d[0].1
    else
      var r := DictGet(d[1..], key, default);
      assert HasKey(d, key) ==> HasKey(d[1..], key) by {
        if HasKey(d, key) {
          var i :| 0 <= i < |d| && d[i].0 == key;
          assert d[1..][i - 1].0 == key;
        }
      }
      assert DistinctKeys(d) ==> DistinctKeys(d[1..]) by {
        if DistinctKeys(d) {
          forall i, j | 0 <= i < j < |d[1..]|
            ensures d[1..][i].0 != d[1..][j].0
          {
            assert d[1..][i] == d[i + 1] && d[1..][j] == d[j + 1];
          }
        }
      }
      r
  }

  /** `d.get(key)`: the first entry under `key`, if any. */
  function DictFind<V>(d: Dict<V>, key: string): (r: Option<V>)
    ensures r.None? <==> !HasKey(d, key)
    ensures r.Some? ==> exists i :: 0 <= i < |d| && d[i] == (key, r.value)
    ensures r.Some? ==> forall i :: 0 <= i < |d| && d[i].0 == key && DistinctKeys(d) ==> d[i].1 == r.value
  {
    if d == [] then None
    else if d[0].0 == key then Some(d[0].1)
    else
      var r := DictFind(d[1..], key);
      assert HasKey(d, key) ==> HasKey(d[1..], key) by {
        if HasKey(d, key) {
          var i :| 0 <= i < |d| && d[i].0 == key;
          assert d[1..][i - 1].0 == key;
        }
      }
      assert r.Some? ==> exists i :: 0 <= i < |d| && d[i] == (key, r.value) by {
        if r.Some? {
          var i :| 0 <= i < |d[1..]| && d[1..][i] == (key, r.value);
          assert d[i + 1] == (key, r.value);
        }
      }
      r
  }

  /**
   * `d[key] = value`: an existing key keeps its place and takes the new
   * value; a new key goes last.
   */
  function Put<V>(d: Dict<V>, key: string, value: V): (r: Dict<V>)
    ensures HasKey(r, key)
    ensures HasKey(d, key) ==> |r| == |d|
    ensures !HasKey(d, key) ==> r == d + [(key, value)]
    ensures forall i :: 0 <= i < |d| ==> r[i] == if d[i].0 == key then (key, value) else d[i]
  {
    if HasKey(d, key) then
      var r := seq(|d|, i requires 0 <= i < |d| => if d[i].0 == key then (key, value) else d[i]);
      var k :| 0 <= k < |d| && d[k].0 == key;
      assert r[k].0 == key;
      r
    else
      var r := d + [(key, value)];
      assert r[|d|].0 == key;
      r
  }

  /**
   * Assignment keeps the keys distinct, and leaves the key order alone for
   * an existing key and appends a new one.
   */
  lemma PutKeys<V>(d: Dict<V>, key: string, value: V)
    requires DistinctKeys(d)
    ensures DistinctKeys(Put(d, key, value))
    ensures Seqs.Firsts(Put(d, key, value)) == if key in Seqs.Firsts(d) then Seqs.Firsts(d) else Seqs.Firsts(d) + [key]
  {
    var r := Put(d, key, value);
    var ks := Seqs.Firsts(d);
    assert HasKey(d, key) <==> key in ks by {
      if key in ks {
        var i :| 0 <= i < |ks| && ks[i] == key;
        assert d[i].0 == key;
      }
    }
    if !HasKey(d, key) {
      assert Seqs.Firsts(r) == ks + [key];
    }
  }

  /** After assignment the key holds the new value, and every other key what it held before. */
  lemma PutFind<V>(d: Dict<V>, key: string, value: V)
    requires DistinctKeys(d)
    ensures DictFind(Put(d, key, value), key) == Some(value)
    ensures forall k :: k != key ==> DictFind(Put(d, key, value), k) == DictFind(d, k)
  {
    var r := Put(d, key, value);
    PutKeys(d, key, value);
    var k :| 0 <= k < |r| && r[k].0 == key;
    assert r[k] == (key, value);
    forall k' | k' != key
      ensures DictFind(r, k') == DictFind(d, k')
    {
      assert HasKey(r, k') ==> HasKey(d, k') by {
        if HasKey(r, k') {
          var j :| 0 <= j < |r| && r[j].0 == k';
          assert d[j].0 == k';
        }
      }
      assert HasKey(d, k') ==> HasKey(r, k') by {
        if HasKey(d, k') {
          var j :| 0 <= j < |d| && d[j].0 == k';
          assert r[j].0 == k';
        }
      }
    }
  }
}
