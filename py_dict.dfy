// A Python dict as the modelled code uses it: keys kept in insertion order,
// `d[k] = v` replacing in place or appending, `del d[k]` closing the gap.
module PyDict {
  import opened Wrappers

  type Dict<K, V> = seq<(K, V)>

  /** No key occurs twice. */
  predicate DistinctKeys<K(==), V>(d: Dict<K, V>)
  {
    forall i, j :: 0 <= i < j < |d| ==> d[i].0 != d[j].0
  }

  /** The position of key k, if present. */
  function Find<K(==), V>(d: Dict<K, V>, k: K): (r: Option<nat>)
    ensures r.Some? ==> r.value < |d| && d[r.value].0 == k
    ensures r.Some? ==> forall i :: 0 <= i < r.value ==> d[i].0 != k
    ensures r.None? <==> forall i :: 0 <= i < |d| ==> d[i].0 != k
  {
    if |d| == 0 then None
    else if d[0].0 == k then Some(0)
    else
      var rest := Find(d[1..], k);
      if rest.None? then None else Some(rest.value + 1)
  }

  /** `k in d`. */
  predicate Contains<K(==), V>(d: Dict<K, V>, k: K)
  {
    Find(d, k).Some?
  }

  /** `d.get(k)`. */
  function Get<K(==), V>(d: Dict<K, V>, k: K): (r: Option<V>)
    ensures r.Some? <==> Contains(d, k)
    ensures r.Some? ==> (k, r.value) in d
  {
    var i := Find(d, k);
    if i.None? then None else Some(d[i.value].1)
  }

  /** `list(d.keys())`. */
  function Keys<K(==), V>(d: Dict<K, V>): (r: seq<K>)
    ensures |r| == |d| && forall i :: 0 <= i < |d| ==> r[i] == d[i].0
  {
    if |d| == 0 then [] else [d[0].0] + Keys(d[1..])
  }

  /** `list(d.values())`. */
  function Values<K(==), V>(d: Dict<K, V>): (r: seq<V>)
    ensures |r| == |d| && forall i :: 0 <= i < |d| ==> r[i] == d[i].1
  {
    if |d| == 0 then [] else [d[0].1] + Values(d[1..])
  }

  /** `d[k] = v`: an existing key keeps its place, a new one goes last. */
  function Put<K(==), V>(d: Dict<K, V>, k: K, v: V): (r: Dict<K, V>)
  {
    var i := Find(d, k);
    if i.Some? then d[i.value := (k, v)] else d + [(k, v)]
  }

  /** `del d[k]` for a present key: the entries before and after it, in order. */
  function Remove<K(==), V>(d: Dict<K, V>, k: K): (r: Dict<K, V>)
    requires Contains(d, k)
  {
    var i := Find(d, k).value;
    d[..i] + d[i + 1..]
  }

  /** `d[k] = v` keeps the keys distinct. */
  lemma PutKeepsDistinct<K, V>(d: Dict<K, V>, k: K, v: V)
    requires DistinctKeys(d)
    ensures DistinctKeys(Put(d, k, v))
  {
  }

  /** The first entry with key k is the one Find reports. */
  lemma FindIs<K, V>(d: Dict<K, V>, k: K, p: nat)
    requires p < |d| && d[p].0 == k
    requires forall i :: 0 <= i < p ==> d[i].0 != k
    ensures Find(d, k) == Some(p)
  {
  }

  /** In a dict with distinct keys, each entry's key looks up that entry's value. */
  lemma GetAt<K, V>(d: Dict<K, V>, p: nat)
    requires DistinctKeys(d) && p < |d|
    ensures Get(d, d[p].0) == Some(d[p].1)
  {
    FindIs(d, d[p].0, p);
  }

  /** Two dicts with the same key at every position find every key at the same place. */
  lemma SameKeysSameFind<K, V>(d: Dict<K, V>, e: Dict<K, V>, k: K)
    requires |d| == |e| && forall i :: 0 <= i < |d| ==> d[i].0 == e[i].0
    ensures Find(d, k) == Find(e, k)
  {
    var f := Find(d, k);
    if f.Some? {
      FindIs(e, k, f.value);
    } else {
      assert forall i :: 0 <= i < |e| ==> e[i].0 != k by {
        forall i | 0 <= i < |e|
          ensures e[i].0 != k
        {
          assert d[i].0 != k;
        }
      }
    }
  }

  /** Overwriting the value of a present key. */
  lemma PutPresent<K, V>(d: Dict<K, V>, k: K, v: V, i: nat)
    requires DistinctKeys(d) && Find(d, k) == Some(i)
    ensures DistinctKeys(Put(d, k, v))
    ensures Get(Put(d, k, v), k) == Some(v)
    ensures forall k' :: k' != k ==> Get(Put(d, k, v), k') == Get(d, k')
  {
    var r := d[i := (k, v)];
    assert Put(d, k, v) == r;
    assert forall j :: 0 <= j < |d| ==> r[j].0 == d[j].0;
    forall k'
      ensures Get(r, k') == (if k' == k then Some(v) else Get(d, k'))
    {
      SameKeysSameFind(r, d, k');
    }
  }

  /** Adding an absent key at the end. */
  lemma PutAbsent<K, V>(d: Dict<K, V>, k: K, v: V)
    requires DistinctKeys(d) && !Contains(d, k)
    ensures DistinctKeys(Put(d, k, v))
    ensures Get(Put(d, k, v), k) == Some(v)
    ensures forall k' :: k' != k ==> Get(Put(d, k, v), k') == Get(d, k')
  {
    var r := d + [(k, v)];
    assert Put(d, k, v) == r;
    assert forall j :: 0 <= j < |d| ==> r[j] == d[j];
    FindIs(r, k, |d|);
    forall k' | k' != k
      ensures Get(r, k') == Get(d, k')
    {
      var b := Find(d, k');
      if b.Some? {
        FindIs(r, k', b.value);
      } else {
        assert forall j :: 0 <= j < |r| ==> r[j].0 != k';
      }
    }
  }

  /** After `d[k] = v`, k maps to v, every other key to what it did, and keys stay distinct. */
  lemma PutSpec<K, V>(d: Dict<K, V>, k: K, v: V)
    requires DistinctKeys(d)
    ensures DistinctKeys(Put(d, k, v))
    ensures Get(Put(d, k, v), k) == Some(v)
    ensures forall k' :: k' != k ==> Get(Put(d, k, v), k') == Get(d, k')
    ensures Contains(d, k) ==> |Put(d, k, v)| == |d|
    ensures !Contains(d, k) ==> Put(d, k, v) == d + [(k, v)]
  {
    var i := Find(d, k);
    if i.Some? {
      PutPresent(d, k, v, i.value);
    } else {
      PutAbsent(d, k, v);
    }
  }

  /** The entries left by removing position i, position by position. */
  lemma RemoveAt<K, V>(d: Dict<K, V>, i: nat)
    requires i < |d|
    ensures var r := d[..i] + d[i + 1..];
      |r| == |d| - 1 &&
      (forall j :: 0 <= j < i ==> r[j] == d[j]) &&
      (forall j :: i <= j < |r| ==> r[j] == d[j + 1])
  {
  }

  /** Where entry j of d ends up once position i is closed up. */
  function Shifted(j: nat, i: nat): nat
    requires j != i
  {
    if j < i then j else j - 1
  }

  /** Keys of d other than the one at position i keep their place, shifted down past i. */
  lemma ClosedGapFind<K, V>(d: Dict<K, V>, r: Dict<K, V>, i: nat, k': K)
    requires DistinctKeys(d) && i < |d| && k' != d[i].0
    requires |r| == |d| - 1
    requires forall j :: 0 <= j < i ==> r[j] == d[j]
    requires forall j :: i <= j < |r| ==> r[j] == d[j + 1]
    ensures Find(d, k').Some? ==> Find(r, k') == Some(Shifted(Find(d, k').value, i))
    ensures Find(d, k').None? ==> Find(r, k').None?
  {
    var b := Find(d, k');
    if b.Some? {
      var p := Shifted(b.value, i);
      assert r[p] == d[b.value];
      forall j | 0 <= j < p
        ensures r[j].0 != k'
      {
        if j >= i {
          assert r[j] == d[j + 1];
        }
      }
      FindIs(r, k', p);
    } else {
      forall j | 0 <= j < |r|
        ensures r[j].0 != k'
      {
        if j >= i {
          assert r[j] == d[j + 1];
        }
      }
    }
  }

  /** Closing up position i keeps keys distinct and drops the key that was there. */
  lemma ClosedGapDistinct<K, V>(d: Dict<K, V>, r: Dict<K, V>, i: nat)
    requires DistinctKeys(d) && i < |d|
    requires |r| == |d| - 1
    requires forall j :: 0 <= j < i ==> r[j] == d[j]
    requires forall j :: i <= j < |r| ==> r[j] == d[j + 1]
    ensures DistinctKeys(r)
    ensures forall j :: 0 <= j < |r| ==> r[j].0 != d[i].0
  {
    forall a, b | 0 <= a < b < |r|
      ensures r[a].0 != r[b].0
    {
      var a' := if a < i then a else a + 1;
      var b' := if b < i then b else b + 1;
      assert r[a] == d[a'] && r[b] == d[b'];
    }
    forall j | 0 <= j < |r|
      ensures r[j].0 != d[i].0
    {
      var j' := if j < i then j else j + 1;
      assert r[j] == d[j'];
    }
  }

  /** After `del d[k]`, k is gone, every other key keeps its value, and keys stay distinct. */
  lemma RemoveSpec<K, V>(d: Dict<K, V>, k: K)
    requires DistinctKeys(d) && Contains(d, k)
    ensures DistinctKeys(Remove(d, k))
    ensures !Contains(Remove(d, k), k)
    ensures forall k' :: k' != k ==> Get(Remove(d, k), k') == Get(d, k')
    ensures |Remove(d, k)| == |d| - 1
  {
    var i := Find(d, k).value;
    var r := Remove(d, k);
    RemoveAt(d, i);
    ClosedGapDistinct(d, r, i);
    forall k' | k' != k
      ensures Get(r, k') == Get(d, k')
    {
      ClosedGapFind(d, r, i, k');
      var b := Find(d, k');
      if b.Some? {
        assert r[Shifted(b.value, i)] == d[b.value];
      }
    }
  }

  /** Overwriting a present key and then deleting it is deleting it. */
  lemma RemoveAfterPut<K, V>(d: Dict<K, V>, k: K, v: V)
    requires Contains(d, k)
    ensures Contains(Put(d, k, v), k) && Remove(Put(d, k, v), k) == Remove(d, k)
  {
    var i := Find(d, k).value;
    var r := d[i := (k, v)];
    assert Put(d, k, v) == r;
    SameKeysSameFind(r, d, k);
    assert r[..i] == d[..i] && r[i + 1..] == d[i + 1..];
  }

  /** A key is in a non-empty dict exactly when it is in all but the last entry or is the last entry's. */
  lemma ContainsSnoc<K, V>(d: Dict<K, V>, k: K)
    requires |d| > 0
    ensures Contains(d, k) <==> Contains(d[..|d| - 1], k) || d[|d| - 1].0 == k
  {
    var init := d[..|d| - 1];
    assert forall j :: 0 <= j < |init| ==> init[j] == d[j];
  }

  /** Dropping the last entry keeps keys distinct and leaves its key absent. */
  lemma DistinctInit<K, V>(d: Dict<K, V>)
    requires DistinctKeys(d) && |d| > 0
    ensures DistinctKeys(d[..|d| - 1])
    ensures !Contains(d[..|d| - 1], d[|d| - 1].0)
  {
    var init := d[..|d| - 1];
    assert forall j :: 0 <= j < |init| ==> init[j] == d[j];
    assert forall j :: 0 <= j < |init| ==> init[j].0 != d[|d| - 1].0;
  }

  /** Folding `d[k] = v` over entries whose keys are distinct rebuilds them unchanged. */
  function FromItems<K(==), V>(items: seq<(K, V)>): Dict<K, V>
  {
    if |items| == 0 then [] else Put(FromItems(items[..|items| - 1]), items[|items| - 1].0, items[|items| - 1].1)
  }

  lemma {:induction false} FromItemsDistinct<K, V>(items: seq<(K, V)>)
    requires DistinctKeys(items)
    ensures FromItems(items) == items
  {
    if |items| > 0 {
      var init := items[..|items| - 1];
      var last := items[|items| - 1];
      DistinctInit(items);
      FromItemsDistinct(init);
      calc {
        FromItems(items);
        Put(FromItems(init), last.0, last.1);
        Put(init, last.0, last.1);
        { assert Find(init, last.0).None?; }
        init + [(last.0, last.1)];
        items;
      }
    }
  }

  /** `d.update(e)`: the entries of e override, every other entry of d stays. */
  function Update<K(==), V>(d: Dict<K, V>, e: Dict<K, V>): Dict<K, V>
  {
    if |e| == 0 then d
    else Put(Update(d, e[..|e| - 1]), e[|e| - 1].0, e[|e| - 1].1)
  }

  lemma {:induction false} UpdateSpec<K, V>(d: Dict<K, V>, e: Dict<K, V>)
    requires DistinctKeys(d) && DistinctKeys(e)
    ensures DistinctKeys(Update(d, e))
    ensures forall k :: Get(Update(d, e), k) == if Contains(e, k) then Get(e, k) else Get(d, k)
  {
    if |e| > 0 {
      var init := e[..|e| - 1];
      var last := e[|e| - 1];
      DistinctInit(e);
      UpdateSpec(d, init);
      PutSpec(Update(d, init), last.0, last.1);
      forall k
        ensures Contains(e, k) == (Contains(init, k) || k == last.0)
        ensures Contains(e, k) ==> Get(e, k) == if k == last.0 then Some(last.1) else Get(init, k)
      {
        PutSpec(init, last.0, last.1);
        assert e == Put(init, last.0, last.1);
      }
    }
  }
}
