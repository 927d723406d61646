/**
  A plain JavaScript object used as a dictionary: its own string-keyed properties in
  insertion order. `Object.keys`, `Object.entries`, `forEach` over them and `qs.stringify`
  all follow that order, so the model keeps it: a dictionary is the sequence of its entries.
  Assigning to an existing property keeps its place, assigning a new one appends it, and
  `delete` drops it.
*/
module JsObject {
  import opened Wrappers

  type Dict<V> = seq<(string, V)>

  /** `Object.keys(d)`. */
  function Keys<V>(d: Dict<V>): (ks: seq<string>)
    ensures |ks| == |d|
    ensures forall i :: 0 <= i < |d| ==> ks[i] == d[i].0
  {
    if d == [] then [] else [d[0].0] + Keys(d[1..])
  }

  /** No key occurs twice, as in every JavaScript object. */
  predicate DistinctKeys<V>(d: Dict<V>) {
    forall i, j :: 0 <= i < j < |d| ==> d[i].0 != d[j].0
  }

  /** `d[k]`, with `None` for `undefined`. */
  function Get<V>(d: Dict<V>, k: string): (r: Option<V>)
    ensures r.None? <==> k !in Keys(d)
  {
    if d == [] then None
    else if d[0].0 == k then Some(d[0].1)
    else Get(d[1..], k)
  }

  /** Looking a key up in a concatenation finds the first part's entry first. */
  lemma {:induction false} GetAppend<V>(d: Dict<V>, e: Dict<V>, k: string)
    ensures Get(d + e, k) == if Get(d, k).Some? then Get(d, k) else Get(e, k)
  {
    if d == [] {
      assert d + e == e;
    } else {
      assert (d + e)[0] == d[0];
      assert (d + e)[1..] == d[1..] + e;
      if d[0].0 != k {
        GetAppend(d[1..], e, k);
        assert Get(d + e, k) == Get(d[1..] + e, k);
      }
    }
  }

  /** Every entry with key `k` gets the value `v`; the order is kept. */
  function Replace<V>(d: Dict<V>, k: string, v: V): (r: Dict<V>)
    ensures Keys(r) == Keys(d)
    ensures forall k' :: Get(r, k') == if k' == k && k in Keys(d) then Some(v) else Get(d, k')
  {
    if d == [] then []
    else
      var rest := Replace(d[1..], k, v);
      var r := (if d[0].0 == k then [(k, v)] else [d[0]]) + rest;
      assert r[1..] == rest;
      r
  }

  /** `d[k] = v` on a copy: an existing property keeps its place, a new one goes last. */
  function Put<V>(d: Dict<V>, k: string, v: V): (r: Dict<V>)
    ensures k in Keys(d) ==> Keys(r) == Keys(d)
    ensures k !in Keys(d) ==> Keys(r) == Keys(d) + [k]
    ensures forall k' :: Get(r, k') == if k' == k then Some(v) else Get(d, k')
  {
    if k in Keys(d) then Replace(d, k, v)
    else
      var r := d + [(k, v)];
      assert Keys(r) == Keys(d) + [k];
      forall k' ensures Get(r, k') == if k' == k then Some(v) else Get(d, k') {
        GetAppend(d, [(k, v)], k');
      }
      r
  }

  /** `delete` of every key in `ks`, on a copy; the remaining entries keep their order. */
  function RemoveAll<V>(d: Dict<V>, ks: set<string>): (r: Dict<V>)
    ensures |r| <= |d|
    ensures forall k' :: Get(r, k') == if k' in ks then None else Get(d, k')
  {
    if d == [] then []
    else
      var rest := RemoveAll(d[1..], ks);
      if d[0].0 in ks then rest
      else
        var r := [d[0]] + rest;
        assert r[1..] == rest;
        r
  }

  /** `delete d[k]` on a copy. */
  function Remove<V>(d: Dict<V>, k: string): (r: Dict<V>)
    ensures forall k' :: Get(r, k') == if k' == k then None else Get(d, k')
  {
    RemoveAll(d, {k})
  }

  /** The entries of `d` whose key is not in `ks`, with an order-independent definition. */
  lemma {:induction false} RemoveAllAbsent<V>(d: Dict<V>, ks: set<string>)
    requires forall i :: 0 <= i < |d| ==> d[i].0 !in ks
    ensures RemoveAll(d, ks) == d
  {
    if d != [] {
      RemoveAllAbsent(d[1..], ks);
      assert [d[0]] + d[1..] == d;
    }
  }

  /** Deleting in two rounds is deleting once. */
  lemma {:induction false} RemoveAllTwice<V>(d: Dict<V>, a: set<string>, b: set<string>)
    ensures RemoveAll(RemoveAll(d, a), b) == RemoveAll(d, a + b)
  {
    if d != [] {
      RemoveAllTwice(d[1..], a, b);
      var rest := RemoveAll(d[1..], a);
      if d[0].0 !in a {
        assert RemoveAll(d, a) == [d[0]] + rest;
        assert RemoveAll(d, a)[1..] == rest;
      }
    }
  }

  /** Deleting and distinct keys: deletion never creates a duplicate. */
  lemma {:induction false} RemoveAllDistinct<V>(d: Dict<V>, ks: set<string>)
    requires DistinctKeys(d)
    ensures DistinctKeys(RemoveAll(d, ks))
  {
    if d != [] {
      var tail := d[1..];
      assert DistinctKeys(tail) by {
        forall i, j | 0 <= i < j < |tail| ensures tail[i].0 != tail[j].0 {
          assert tail[i] == d[i + 1] && tail[j] == d[j + 1];
        }
      }
      RemoveAllDistinct(tail, ks);
      var rest := RemoveAll(tail, ks);
      if d[0].0 !in ks {
        FirstKeyNotInTail(d);
        assert Get(rest, d[0].0).None?;
        ConsDistinct(d[0], rest);
      }
    }
  }

  /** In an object with distinct keys the first key does not occur again. */
  lemma FirstKeyNotInTail<V>(d: Dict<V>)
    requires d != [] && DistinctKeys(d)
    ensures d[0].0 !in Keys(d[1..])
  {
    var ks := Keys(d[1..]);
    forall m | 0 <= m < |ks| ensures ks[m] != d[0].0 {
      assert ks[m] == d[m + 1].0;
    }
  }

  /** With distinct keys, looking up the key of an entry finds that entry. */
  lemma {:induction false} GetAt<V>(d: Dict<V>, i: nat)
    requires DistinctKeys(d) && i < |d|
    ensures Get(d, d[i].0) == Some(d[i].1)
  {
    if i > 0 {
      assert d[0].0 != d[i].0;
      assert d[1..][i - 1] == d[i];
      GetAt(d[1..], i - 1);
    }
  }

  /** Putting an entry with a new key in front keeps keys distinct. */
  lemma ConsDistinct<V>(e: (string, V), d: Dict<V>)
    requires e.0 !in Keys(d) && DistinctKeys(d)
    ensures DistinctKeys([e] + d)
  {
    var r := [e] + d;
    forall i, j | 0 <= i < j < |r| ensures r[i].0 != r[j].0 {
      assert r[j] == d[j - 1] && Keys(d)[j - 1] == d[j - 1].0;
      if i > 0 {
        assert r[i] == d[i - 1];
      }
    }
  }

  /** `d[k] = v` keeps keys distinct. */
  lemma PutDistinct<V>(d: Dict<V>, k: string, v: V)
    requires DistinctKeys(d)
    ensures DistinctKeys(Put(d, k, v))
  {
    var r := Put(d, k, v);
    forall i, j | 0 <= i < j < |r| ensures r[i].0 != r[j].0 {
      assert Keys(r)[i] == r[i].0 && Keys(r)[j] == r[j].0;
      if k !in Keys(d) && j == |d| {
        assert Keys(d)[i] == d[i].0;
      } else {
        assert Keys(d)[i] == d[i].0 && Keys(d)[j] == d[j].0;
      }
    }
  }

  /** Assigning twice to the same key: the second value wins and the place is kept. */
  lemma {:induction false} ReplaceTwice<V>(d: Dict<V>, k: string, a: V, b: V)
    ensures Replace(Replace(d, k, a), k, b) == Replace(d, k, b)
  {
    if d != [] {
      ReplaceTwice(d[1..], k, a, b);
      assert Replace(d, k, a)[1..] == Replace(d[1..], k, a);
    }
  }

  /** Assigning a key the value it already has changes nothing. */
  lemma {:induction false} ReplaceSame<V>(d: Dict<V>, k: string, v: V)
    requires DistinctKeys(d) && Get(d, k) == Some(v)
    ensures Replace(d, k, v) == d
  {
    if d != [] {
      var rest := Replace(d[1..], k, v);
      if d[0].0 == k {
        assert d[0] == (k, v);
        ReplaceAbsent(d[1..], k, v);
      } else {
        assert DistinctKeys(d[1..]);
        ReplaceSame(d[1..], k, v);
      }
      assert Replace(d, k, v) == [d[0]] + rest;
      assert [d[0]] + d[1..] == d;
    }
  }

  lemma {:induction false} ReplaceAbsent<V>(d: Dict<V>, k: string, v: V)
    requires forall j :: 0 <= j < |d| ==> d[j].0 != k
    ensures Replace(d, k, v) == d
  {
    if d != [] {
      ReplaceAbsent(d[1..], k, v);
      assert [d[0]] + d[1..] == d;
    }
  }

  /** Putting back the value a key had restores the object exactly, order included. */
  lemma PutBack<V>(d: Dict<V>, k: string, x: V, v: V)
    requires DistinctKeys(d) && Get(d, k) == Some(v)
    ensures Put(Put(d, k, x), k, v) == d
  {
    ReplaceTwice(d, k, x, v);
    ReplaceSame(d, k, v);
  }

  /** Adding a new key and deleting it again restores the object exactly. */
  lemma RemoveAdded<V>(d: Dict<V>, k: string, v: V)
    requires k !in Keys(d)
    ensures Remove(Put(d, k, v), k) == d
  {
    assert forall i :: 0 <= i < |d| ==> Keys(d)[i] == d[i].0;
    RemoveAllAbsent(d, {k});
    RemoveAllAppendLast(d, k, v);
  }

  lemma {:induction false} RemoveAllAppendLast<V>(d: Dict<V>, k: string, v: V)
    ensures RemoveAll(d + [(k, v)], {k}) == RemoveAll(d, {k})
  {
    if d == [] {
      assert RemoveAll([(k, v)], {k}) == [] + RemoveAll([], {k});
    } else {
      assert (d + [(k, v)])[1..] == d[1..] + [(k, v)];
      RemoveAllAppendLast(d[1..], k, v);
    }
  }

  /** Assigning a key and then deleting it is just deleting it. */
  lemma RemovePut<V>(d: Dict<V>, k: string, v: V)
    ensures Remove(Put(d, k, v), k) == Remove(d, k)
  {
    if k in Keys(d) {
      RemoveAllReplaced(d, k, v);
    } else {
      RemoveAllAppendLast(d, k, v);
    }
  }

  lemma {:induction false} RemoveAllReplaced<V>(d: Dict<V>, k: string, v: V)
    ensures RemoveAll(Replace(d, k, v), {k}) == RemoveAll(d, {k})
  {
    if d != [] {
      var r := Replace(d, k, v);
      assert r[0].0 == d[0].0 && r[1..] == Replace(d[1..], k, v);
      RemoveAllReplaced(d[1..], k, v);
      if d[0].0 != k {
        assert r[0] == d[0];
      }
    }
  }
}
