/** The string-keyed key-value store every route handler reads and writes
    (`get`, `set`, `del`, `getByPrefix`). Its implementation is not part of
    this model; only its observable contract is. The order in which
    `getByPrefix` lists records is unknown, so a scan takes the store's
    enumeration order as a parameter instead of assuming sorted keys. */
module Kv {
  import opened Wrappers

  type Store<V> = map<string, V>

  /** `kv.get(key)`: the value, or None when the key is absent. */
  function Get<V>(s: Store<V>, key: string): (r: Option<V>)
    ensures r.Some? <==> key in s
    ensures r.Some? ==> r.value == s[key]
  {
    if key in s then Some(s[key]) else None
  }

  /** `kv.set(key, value)`: an upsert; every other key keeps its value. */
  function Set<V>(s: Store<V>, key: string, value: V): (r: Store<V>)
    ensures r.Keys == s.Keys + {key}
    ensures Get(r, key) == Some(value)
    ensures forall k :: k in s && k != key ==> r[k] == s[k]
  {
    s[key := value]
  }

  /** `kv.del(key)`: removes the key; removing an absent key is not an error. */
  function Del<V>(s: Store<V>, key: string): (r: Store<V>)
    ensures r.Keys == s.Keys - {key}
    ensures Get(r, key) == None
    ensures forall k :: k in r ==> r[k] == s[k]
    ensures key !in s ==> r == s
  {
    s - {key}
  }

  /** Writing the same value twice is the same as writing it once. */
  lemma SetIdempotent<V>(s: Store<V>, key: string, value: V)
    ensures Set(Set(s, key, value), key, value) == Set(s, key, value)
  {
  }

  /** `order` lists every key of the store exactly once: the store's own enumeration. */
  ghost predicate Enumerates<V>(s: Store<V>, order: seq<string>) {
    && (forall k :: k in s ==> k in order)
    && (forall i :: 0 <= i < |order| ==> order[i] in s)
    && (forall i, j :: 0 <= i < j < |order| ==> order[i] != order[j])
  }

  /** `kv.getByPrefix(prefix)`: the records whose key starts with `prefix`,
      listed in the enumeration order `order`. */
  function Scan<V>(s: Store<V>, prefix: string, order: seq<string>): (r: seq<(string, V)>)
    ensures |r| <= |order|
    ensures forall i :: 0 <= i < |r| ==> r[i].0 in s && prefix <= r[i].0 && s[r[i].0] == r[i].1
    decreases |order|
  {
    if |order| == 0 then []
    else if order[0] in s && prefix <= order[0] then [(order[0], s[order[0]])] + Scan(s, prefix, order[1..])
    else Scan(s, prefix, order[1..])
  }

  /** A scan reports every listed key that is stored under the prefix. */
  lemma {:induction false} ScanFinds<V>(s: Store<V>, prefix: string, order: seq<string>, i: int)
    requires 0 <= i < |order| && order[i] in s && prefix <= order[i]
    ensures exists j :: 0 <= j < |Scan(s, prefix, order)| && Scan(s, prefix, order)[j].0 == order[i]
    decreases |order|
  {
    var r := Scan(s, prefix, order);
    if order[0] in s && prefix <= order[0] {
      var rest := Scan(s, prefix, order[1..]);
      assert r == [(order[0], s[order[0]])] + rest;
      if i == 0 {
        assert r[0].0 == order[i];
      } else {
        ScanFinds(s, prefix, order[1..], i - 1);
        var j :| 0 <= j < |rest| && rest[j].0 == order[1..][i - 1];
        assert r[j + 1].0 == order[i];
      }
    } else {
      assert i > 0;
      ScanFinds(s, prefix, order[1..], i - 1);
      assert r == Scan(s, prefix, order[1..]);
    }
  }

  /** With the store's own enumeration, a scan finds every record under the prefix. */
  lemma ScanComplete<V>(s: Store<V>, prefix: string, order: seq<string>, key: string)
    requires Enumerates(s, order)
    requires key in s && prefix <= key
    ensures exists j :: 0 <= j < |Scan(s, prefix, order)| && Scan(s, prefix, order)[j].0 == key
  {
    var i :| 0 <= i < |order| && order[i] == key;
    ScanFinds(s, prefix, order, i);
  }

  /** Scanning two keys where only the second lies under the prefix finds just the second. */
  lemma ScanSkipThenTake<V>(s: Store<V>, prefix: string, skipped: string, taken: string)
    requires skipped in s && !(prefix <= skipped)
    requires taken in s && prefix <= taken
    ensures Scan(s, prefix, [skipped, taken]) == [(taken, s[taken])]
  {
    var order := [skipped, taken];
    assert order[1..] == [taken] && order[1..][1..] == [];
  }

  /** No key is listed twice. */
  ghost predicate KeysDistinct<V>(r: seq<(string, V)>) {
    forall i, j :: 0 <= i < j < |r| ==> r[i].0 != r[j].0
  }

  /** A scan lists each key at most once when the enumeration does. */
  lemma {:induction false} ScanKeysDistinct<V>(s: Store<V>, prefix: string, order: seq<string>)
    requires forall i, j :: 0 <= i < j < |order| ==> order[i] != order[j]
    ensures KeysDistinct(Scan(s, prefix, order))
    decreases |order|
  {
    if |order| > 0 {
      var tail := order[1..];
      assert forall i, j :: 0 <= i < j < |tail| ==> tail[i] != tail[j] by {
        forall i, j | 0 <= i < j < |tail|
          ensures tail[i] != tail[j]
        {
          assert tail[i] == order[i + 1] && tail[j] == order[j + 1];
        }
      }
      ScanKeysDistinct(s, prefix, tail);
      var rest := Scan(s, prefix, tail);
      if order[0] in s && prefix <= order[0] {
        var r := Scan(s, prefix, order);
        assert r == [(order[0], s[order[0]])] + rest;
        forall i, j | 0 <= i < j < |r|
          ensures r[i].0 != r[j].0
        {
          HeadNotRescanned(s, prefix, order, j - 1);
          assert r[j] == rest[j - 1];
          if i > 0 {
            assert r[i] == rest[i - 1];
          }
        }
      } else {
        assert Scan(s, prefix, order) == rest;
      }
    }
  }

  /** With distinct keys in the enumeration, the head's key is not found again further on. */
  lemma HeadNotRescanned<V>(s: Store<V>, prefix: string, order: seq<string>, j: int)
    requires forall i, j :: 0 <= i < j < |order| ==> order[i] != order[j]
    requires |order| > 0 && 0 <= j < |Scan(s, prefix, order[1..])|
    ensures Scan(s, prefix, order[1..])[j].0 != order[0]
  {
    var tail := order[1..];
    ScanKeysFrom(s, prefix, tail, j);
    var k :| 0 <= k < |tail| && tail[k] == Scan(s, prefix, tail)[j].0;
    assert tail[k] == order[k + 1];
  }

  /** Every key a scan reports comes from the enumeration. */
  lemma {:induction false} ScanKeysFrom<V>(s: Store<V>, prefix: string, order: seq<string>, j: int)
    requires 0 <= j < |Scan(s, prefix, order)|
    ensures Scan(s, prefix, order)[j].0 in order
    decreases |order|
  {
    var r, rest := Scan(s, prefix, order), Scan(s, prefix, order[1..]);
    if order[0] in s && prefix <= order[0] {
      assert r == [(order[0], s[order[0]])] + rest;
      if j > 0 {
        ScanKeysFrom(s, prefix, order[1..], j - 1);
        assert r[j] == rest[j - 1];
      }
    } else {
      assert r == rest;
      ScanKeysFrom(s, prefix, order[1..], j);
    }
  }
}
