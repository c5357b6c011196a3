/** A JavaScript Map as the sequence of its entries in insertion order. */
module OrderedMap {
  import opened Wrappers

  datatype Slot<+K, +V> = Slot(key: K, value: V)

  ghost predicate UniqueKeys<K, V>(c: seq<Slot<K, V>>) {
    forall i, j :: 0 <= i < j < |c| ==> c[i].key != c[j].key
  }

  ghost predicate UniqueValues<K, V>(c: seq<Slot<K, V>>) {
    forall i, j :: 0 <= i < j < |c| ==> c[i].value != c[j].value
  }

  function Lookup<K(==), V>(c: seq<Slot<K, V>>, key: K): (r: Option<V>)
    ensures r.Some? ==> Slot(key, r.value) in c
    ensures r.None? ==> forall s :: s in c ==> s.key != key
  {
    if c == [] then None
    else if c[0].key == key then Some(c[0].value)
    else Lookup(c[1..], key)
  }

  /** Map.prototype.delete: the other slots keep their order. */
  function Without<K(==), V>(c: seq<Slot<K, V>>, key: K): (r: seq<Slot<K, V>>)
    ensures forall s :: s in r ==> s in c && s.key != key
    ensures forall s :: s in c && s.key != key ==> s in r
    ensures |r| <= |c|
  {
    if c == [] then []
    else if c[0].key == key then Without(c[1..], key)
    else [c[0]] + Without(c[1..], key)
  }

  lemma UniqueTail<K, V>(c: seq<Slot<K, V>>)
    requires UniqueKeys(c) && c != []
    ensures UniqueKeys(c[1..])
    ensures forall s :: s in c[1..] ==> s.key != c[0].key
  {
    forall i, j | 0 <= i < j < |c[1..]| ensures c[1..][i].key != c[1..][j].key {
      assert c[1..][i] == c[i + 1] && c[1..][j] == c[j + 1];
    }
  }

  lemma {:induction false} LookupUnique<K, V>(c: seq<Slot<K, V>>, s: Slot<K, V>)
    requires UniqueKeys(c) && s in c
    ensures Lookup(c, s.key) == Some(s.value)
  {
    if c[0] != s {
      UniqueTail(c);
      LookupUnique(c[1..], s);
    }
  }

  lemma {:induction false} WithoutAbsent<K, V>(c: seq<Slot<K, V>>, key: K)
    requires forall s :: s in c ==> s.key != key
    ensures Without(c, key) == c
  {
    if c != [] {
      assert c[0] in c;
      WithoutAbsent(c[1..], key);
    }
  }

  /** Deleting the slot at position `i` closes the gap and nothing else. */
  lemma {:induction false} WithoutAt<K, V>(c: seq<Slot<K, V>>, i: nat)
    requires UniqueKeys(c) && i < |c|
    ensures Without(c, c[i].key) == c[..i] + c[i + 1..]
  {
    UniqueTail(c);
    if i == 0 {
      WithoutAbsent(c[1..], c[0].key);
    } else {
      var rest := c[1..];
      assert rest[i - 1] == c[i] && c[0].key != c[i].key;
      WithoutAt(rest, i - 1);
      assert Without(c, c[i].key) == [c[0]] + Without(rest, c[i].key);
      hide UniqueKeys, Without;
      assert rest[..i - 1] == c[1..i] && rest[i..] == c[i + 1..] && [c[0]] + c[1..i] == c[..i];
    }
  }

  lemma {:induction false} WithoutKeepsUnique<K, V>(c: seq<Slot<K, V>>, key: K)
    requires UniqueKeys(c)
    ensures UniqueKeys(Without(c, key))
  {
    if c != [] {
      UniqueTail(c);
      WithoutKeepsUnique(c[1..], key);
      if c[0].key != key {
        ConsUnique(c[0], Without(c[1..], key));
      }
    }
  }

  lemma ConsUnique<K, V>(s: Slot<K, V>, c: seq<Slot<K, V>>)
    requires UniqueKeys(c) && forall t :: t in c ==> t.key != s.key
    ensures UniqueKeys([s] + c)
  {
    forall i, j | 0 <= i < j < |[s] + c| ensures ([s] + c)[i].key != ([s] + c)[j].key {
      assert c[j - 1] in c;
      if i > 0 { assert c[i - 1].key != c[j - 1].key; }
    }
  }

  lemma SnocUnique<K, V>(c: seq<Slot<K, V>>, s: Slot<K, V>)
    requires UniqueKeys(c) && forall t :: t in c ==> t.key != s.key
    ensures UniqueKeys(c + [s])
  {
    forall i, j | 0 <= i < j < |c + [s]| ensures (c + [s])[i].key != (c + [s])[j].key {
      assert c[i] in c;
      if j < |c| { assert c[i].key != c[j].key; }
    }
  }

  lemma SnocUniqueValues<K, V>(c: seq<Slot<K, V>>, s: Slot<K, V>)
    requires UniqueValues(c) && forall t :: t in c ==> t.value != s.value
    ensures UniqueValues(c + [s])
  {
  }

  /** A ranking of the keys that the insertion order agrees with. */
  ghost predicate OrderedBy<K(!new), V>(c: seq<Slot<K, V>>, rank: K -> int) {
    forall i, j :: 0 <= i < j < |c| ==> rank(c[i].key) < rank(c[j].key)
  }

  lemma ConsKeepsOrder<K(!new), V>(s: Slot<K, V>, c: seq<Slot<K, V>>, rank: K -> int)
    requires OrderedBy(c, rank) && forall t :: t in c ==> rank(s.key) < rank(t.key)
    ensures OrderedBy([s] + c, rank)
  {
    var d := [s] + c;
    forall i, j | 0 <= i < j < |d| ensures rank(d[i].key) < rank(d[j].key) {
      assert d[j] == c[j - 1] && c[j - 1] in c;
      if i > 0 { assert d[i] == c[i - 1]; }
    }
  }

  lemma {:induction false} WithoutKeepsOrder<K(!new), V>(c: seq<Slot<K, V>>, key: K, rank: K -> int)
    requires OrderedBy(c, rank)
    ensures OrderedBy(Without(c, key), rank)
  {
    if c != [] {
      forall i, j | 0 <= i < j < |c[1..]| ensures rank(c[1..][i].key) < rank(c[1..][j].key) {
        assert c[1..][i] == c[i + 1] && c[1..][j] == c[j + 1];
      }
      WithoutKeepsOrder(c[1..], key, rank);
      if c[0].key != key {
        forall s | s in c[1..] ensures rank(c[0].key) < rank(s.key) {
          var i :| 0 <= i < |c[1..]| && c[1..][i] == s;
          assert c[i + 1] == s;
        }
        ConsKeepsOrder(c[0], Without(c[1..], key), rank);
      }
    }
  }

  lemma RemoveAtUniqueValues<K, V>(c: seq<Slot<K, V>>, i: nat)
    requires UniqueValues(c) && i < |c|
    ensures UniqueValues(c[..i] + c[i + 1..])
  {
    var r := c[..i] + c[i + 1..];
    forall a, b | 0 <= a < b < |r| ensures r[a].value != r[b].value {
      assert r[a] == c[if a < i then a else a + 1] && r[b] == c[if b < i then b else b + 1];
    }
  }

  lemma {:induction false} WithoutKeepsUniqueValues<K, V>(c: seq<Slot<K, V>>, key: K)
    requires UniqueKeys(c) && UniqueValues(c)
    ensures UniqueValues(Without(c, key))
  {
    var found := Lookup(c, key);
    if found.Some? {
      var i :| 0 <= i < |c| && c[i] == Slot(key, found.value);
      WithoutAt(c, i);
      RemoveAtUniqueValues(c, i);
    } else {
      WithoutAbsent(c, key);
    }
  }

  /** A value bound to one key only leaves with that key. */
  lemma {:induction false} WithoutDropsValue<K, V>(c: seq<Slot<K, V>>, key: K)
    requires UniqueKeys(c) && UniqueValues(c) && Lookup(c, key).Some?
    ensures forall s :: s in Without(c, key) ==> s.value != Lookup(c, key).value
  {
    var v := Lookup(c, key).value;
    var i :| 0 <= i < |c| && c[i] == Slot(key, v);
    forall s | s in Without(c, key) ensures s.value != v {
      var j :| 0 <= j < |c| && c[j] == s;
      if i < j { assert c[i].value != c[j].value; } else { assert c[j].value != c[i].value; }
    }
  }
}
