/**
 * Keyed tables kept as sequences: each record carries its own key, no key
 * occurs twice, and the sequence order is the iteration order. `ToMap` is the
 * table's abstract content; the lemmas relate in-place edits of the sequence
 * (replace, insert, delete at a position) to updates of that map.
 */
module Tables {
  import opened Common

  /** The identity projection, for tables whose value is the whole record. */
  function Itself<T>(x: T): T { x }

  /** No two records of `s` share a key. */
  predicate UniqueKeys<T, K(==)>(s: seq<T>, key: T -> K) {
    forall i, j :: 0 <= i < j < |s| ==> key(s[i]) != key(s[j])
  }

  /** The content of a table: each record's key mapped to its value. */
  function ToMap<T, K(==), V>(s: seq<T>, key: T -> K, val: T -> V): map<K, V> {
    if |s| == 0 then map[] else ToMap(s[1..], key, val)[key(s[0]) := val(s[0])]
  }

  /** Position of the record with key `k`, if there is one. */
  function Find<T, K(==)>(s: seq<T>, key: T -> K, k: K): (r: Option<nat>)
    ensures r.Some? ==> r.value < |s| && key(s[r.value]) == k
    ensures r.Some? ==> forall j :: 0 <= j < r.value ==> key(s[j]) != k
    ensures r.None? ==> forall j :: 0 <= j < |s| ==> key(s[j]) != k
  {
    if |s| == 0 then None
    else if key(s[0]) == k then Some(0)
    else match Find(s[1..], key, k)
      case None => None
      case Some(i) => Some(i + 1)
  }

  /** The keys of the map are exactly the keys of the records. */
  lemma {:induction false} ToMapKeys<T, K, V>(s: seq<T>, key: T -> K, val: T -> V, k: K)
    ensures k in ToMap(s, key, val) <==> exists j :: 0 <= j < |s| && key(s[j]) == k
  {
    if |s| > 0 {
      ToMapKeys(s[1..], key, val, k);
      if k != key(s[0]) && k in ToMap(s, key, val) {
        var j :| 0 <= j < |s[1..]| && key(s[1..][j]) == k;
        assert key(s[j + 1]) == k;
      }
      if exists j :: 0 <= j < |s| && key(s[j]) == k {
        var j :| 0 <= j < |s| && key(s[j]) == k;
        if j > 0 {
          assert key(s[1..][j - 1]) == k;
        }
      }
    }
  }

  /** In a table with unique keys, every record's key maps to that record's value. */
  lemma {:induction false} ToMapAt<T, K, V>(s: seq<T>, key: T -> K, val: T -> V, i: nat)
    requires UniqueKeys(s, key) && i < |s|
    ensures key(s[i]) in ToMap(s, key, val) && ToMap(s, key, val)[key(s[i])] == val(s[i])
  {
    if i > 0 {
      ToMapAt(s[1..], key, val, i - 1);
    }
  }

  /** Lookup by `Find` agrees with the table's content. */
  lemma FindAgreesWithToMap<T, K, V>(s: seq<T>, key: T -> K, val: T -> V, k: K)
    requires UniqueKeys(s, key)
    ensures Find(s, key, k).Some? <==> k in ToMap(s, key, val)
    ensures Find(s, key, k).Some? ==> ToMap(s, key, val)[k] == val(s[Find(s, key, k).value])
  {
    ToMapKeys(s, key, val, k);
    if Find(s, key, k).Some? {
      ToMapAt(s, key, val, Find(s, key, k).value);
    }
  }

  /** A table with unique keys has as many entries as records. */
  lemma {:induction false} ToMapSize<T, K, V>(s: seq<T>, key: T -> K, val: T -> V)
    requires UniqueKeys(s, key)
    ensures |ToMap(s, key, val)| == |s|
  {
    if |s| > 0 {
      var m := ToMap(s[1..], key, val);
      ToMapSize(s[1..], key, val);
      ToMapKeys(s[1..], key, val, key(s[0]));
      assert key(s[0]) !in m;
      assert ToMap(s, key, val).Keys == m.Keys + {key(s[0])};
    }
  }

  /** Overwriting the record at `i` with one of the same key updates that key's value. */
  lemma {:induction false} ToMapReplace<T, K, V>(s: seq<T>, key: T -> K, val: T -> V, i: nat, x: T)
    requires UniqueKeys(s, key) && i < |s| && key(x) == key(s[i])
    ensures UniqueKeys(s[i := x], key)
    ensures ToMap(s[i := x], key, val) == ToMap(s, key, val)[key(x) := val(x)]
  {
    if i > 0 {
      assert s[i := x][1..] == s[1..][i - 1 := x];
      ToMapReplace(s[1..], key, val, i - 1, x);
    } else {
      assert s[i := x][1..] == s[1..];
    }
  }

  /** Inserting a record with a fresh key at position `i` adds that key. */
  lemma {:induction false} ToMapInsert<T, K, V>(s: seq<T>, key: T -> K, val: T -> V, i: nat, x: T)
    requires i <= |s| && forall j :: 0 <= j < |s| ==> key(s[j]) != key(x)
    ensures ToMap(s[..i] + [x] + s[i..], key, val) == ToMap(s, key, val)[key(x) := val(x)]
  {
    var t := s[..i] + [x] + s[i..];
    if i == 0 {
      assert t[1..] == s;
    } else {
      assert t[0] == s[0];
      assert t[1..] == s[1..][..i - 1] + [x] + s[1..][i - 1..];
      ToMapInsert(s[1..], key, val, i - 1, x);
    }
  }

  /** Removing the record at `i` of a table with unique keys removes exactly its key. */
  lemma {:induction false} ToMapDelete<T, K, V>(s: seq<T>, key: T -> K, val: T -> V, i: nat)
    requires UniqueKeys(s, key) && i < |s|
    ensures UniqueKeys(s[..i] + s[i + 1..], key)
    ensures ToMap(s[..i] + s[i + 1..], key, val) == ToMap(s, key, val) - {key(s[i])}
  {
    var t := s[..i] + s[i + 1..];
    forall a, b | 0 <= a < b < |t| ensures key(t[a]) != key(t[b]) {
      var a' := if a < i then a else a + 1;
      var b' := if b < i then b else b + 1;
      assert t[a] == s[a'] && t[b] == s[b'];
    }
    if i == 0 {
      assert t == s[1..];
      ToMapKeys(s[1..], key, val, key(s[0]));
    } else {
      assert t[0] == s[0];
      assert t[1..] == s[1..][..i - 1] + s[1..][i..];
      ToMapDelete(s[1..], key, val, i - 1);
    }
  }

  /** Appending a record with a fresh key adds that key and keeps the keys unique. */
  lemma ToMapAppend<T, K, V>(s: seq<T>, key: T -> K, val: T -> V, x: T)
    requires UniqueKeys(s, key) && forall j :: 0 <= j < |s| ==> key(s[j]) != key(x)
    ensures UniqueKeys(s + [x], key)
    ensures ToMap(s + [x], key, val) == ToMap(s, key, val)[key(x) := val(x)]
  {
    assert s + [x] == s[..|s|] + [x] + s[|s|..];
    ToMapInsert(s, key, val, |s|, x);
  }
}
