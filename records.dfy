/** An insertion-ordered dictionary: what a JS `Map` or a plain object keyed by strings
    holds. `Put` is `map.set(k, v)` / `{...obj, [k]: v}`: an existing key keeps its place and
    gets the new value, a new key is appended. `Array.from(map.entries())` is the sequence
    itself. */
module Records {
  import opened Common

  function Keys<K, V>(r: seq<(K, V)>): seq<K>
  {
    if r == [] then [] else [r[0].0] + Keys(r[1..])
  }

  /** `Array.from(map.values())` */
  function Values<K, V>(r: seq<(K, V)>): (vs: seq<V>)
    ensures |vs| == |r|
    ensures forall i | 0 <= i < |r| :: vs[i] == r[i].1
  {
    if r == [] then [] else [r[0].1] + Values(r[1..])
  }

  /** `map.get(k)`: the value of the first entry with key `k`. */
  function Get<K(==), V>(r: seq<(K, V)>, k: K): Option<V>
  {
    if r == [] then None else if r[0].0 == k then Some(r[0].1) else Get(r[1..], k)
  }

  /** `map.set(k, v)` */
  function Put<K(==), V>(r: seq<(K, V)>, k: K, v: V): seq<(K, V)>
  {
    if r == [] then [(k, v)]
    else if r[0].0 == k then [(k, v)] + r[1..]
    else [r[0]] + Put(r[1..], k, v)
  }

  ghost predicate DistinctKeys<K, V>(r: seq<(K, V)>)
  {
    forall i, j | 0 <= i < j < |r| :: r[i].0 != r[j].0
  }

  /** Setting one key changes the value of that key only. */
  lemma {:induction false} GetPut<K, V>(r: seq<(K, V)>, k: K, v: V, k': K)
    ensures Get(Put(r, k, v), k') == if k' == k then Some(v) else Get(r, k')
  {
    if r != [] && r[0].0 != k {
      GetPut(r[1..], k, v, k');
    }
  }

  /** A key is present exactly when it is among the keys. */
  lemma {:induction false} GetKeys<K, V>(r: seq<(K, V)>, k: K)
    ensures Get(r, k).Some? <==> k in Keys(r)
  {
    if r != [] {
      GetKeys(r[1..], k);
    }
  }

  /** Setting an existing key keeps the order of keys; a new key goes last. */
  lemma {:induction false} KeysPut<K, V>(r: seq<(K, V)>, k: K, v: V)
    ensures Keys(Put(r, k, v)) == if k in Keys(r) then Keys(r) else Keys(r) + [k]
  {
    if r != [] && r[0].0 != k {
      KeysPut(r[1..], k, v);
    }
  }

  lemma {:induction false} KeysLength<K, V>(r: seq<(K, V)>)
    ensures |Keys(r)| == |r|
    ensures forall i | 0 <= i < |r| :: Keys(r)[i] == r[i].0
  {
    if r != [] {
      KeysLength(r[1..]);
    }
  }

  /** Looking up the key at position `j`, when no earlier entry has that key, finds the
      entry at `j`; setting it replaces that entry in place. */
  lemma {:induction false} GetPutAt<K, V>(r: seq<(K, V)>, j: int, v: V)
    requires 0 <= j < |r|
    requires forall i | 0 <= i < j :: r[i].0 != r[j].0
    ensures Get(r, r[j].0) == Some(r[j].1)
    ensures Put(r, r[j].0, v) == r[j := (r[j].0, v)]
  {
    if j > 0 {
      GetPutAt(r[1..], j - 1, v);
      assert r[j := (r[j].0, v)] == [r[0]] + r[1..][j - 1 := (r[j].0, v)];
    }
  }

  /** In a map without duplicate keys, the key at position `j` finds the entry at `j`. */
  lemma GetDistinct<K, V>(r: seq<(K, V)>, j: int)
    requires 0 <= j < |r|
    requires DistinctKeys(r)
    ensures Get(r, r[j].0) == Some(r[j].1)
  {
    GetPutAt(r, j, r[j].1);
  }

  /** Setting a key that is not there yet appends it. */
  lemma {:induction false} PutNew<K, V>(r: seq<(K, V)>, k: K, v: V)
    requires k !in Keys(r)
    ensures Put(r, k, v) == r + [(k, v)]
  {
    if r != [] {
      PutNew(r[1..], k, v);
    }
  }

  /** Starting from distinct keys, `Put` never creates a duplicate key. */
  lemma PutDistinct<K, V>(r: seq<(K, V)>, k: K, v: V)
    requires DistinctKeys(r)
    ensures DistinctKeys(Put(r, k, v))
  {
    var r' := Put(r, k, v);
    KeysPut(r, k, v);
    KeysLength(r);
    KeysLength(r');
    forall i, j | 0 <= i < j < |r'| ensures r'[i].0 != r'[j].0 {
      assert Keys(r')[i] == r'[i].0 && Keys(r')[j] == r'[j].0;
      if j == |r| {
        assert Keys(r')[i] == Keys(r)[i];
      } else {
        assert Keys(r')[i] == Keys(r)[i] && Keys(r')[j] == Keys(r)[j];
      }
    }
  }

  /** The elements of `xs` whose key is `k`, in order. */
  function WithKey<T, K(==)>(xs: seq<T>, key: T -> K, k: K): (ys: seq<T>)
    ensures forall i | 0 <= i < |ys| :: key(ys[i]) == k
  {
    if xs == [] then []
    else
      var ys := WithKey(xs[..|xs| - 1], key, k);
      if key(xs[|xs| - 1]) == k then ys + [xs[|xs| - 1]] else ys
  }

  /** A group's accumulated value: the first element's start value, then `step` over every
      element of the group in order. */
  function FoldGroup<T, V>(ys: seq<T>, start: T -> V, step: (V, T) -> V): V
    requires |ys| > 0
  {
    if |ys| == 1 then step(start(ys[0]), ys[0])
    else step(FoldGroup(ys[..|ys| - 1], start, step), ys[|ys| - 1])
  }

  /** The `forEach` that groups rows into a Map:
        xs.forEach(x => map.set(key(x), step(map.get(key(x)) ?? start(x), x))) */
  function Accumulate<T, K(==), V>(xs: seq<T>, key: T -> K, start: T -> V, step: (V, T) -> V): seq<(K, V)>
  {
    if xs == [] then []
    else
      var r := Accumulate(xs[..|xs| - 1], key, start, step);
      var x := xs[|xs| - 1];
      Put(r, key(x), step(Get(r, key(x)).GetOr(start(x)), x))
  }

  /** What the grouping Map holds under a key: nothing when no element has that key,
      otherwise the fold of `step` over exactly the elements with that key. */
  lemma {:induction false} AccumulateGet<T, K, V>(xs: seq<T>, key: T -> K, start: T -> V, step: (V, T) -> V, k: K)
    ensures var g := WithKey(xs, key, k);
      Get(Accumulate(xs, key, start, step), k) == if g == [] then None else Some(FoldGroup(g, start, step))
  {
    if xs != [] {
      var init := xs[..|xs| - 1];
      var x := xs[|xs| - 1];
      var r := Accumulate(init, key, start, step);
      AccumulateGet(init, key, start, step, k);
      GetPut(r, key(x), step(Get(r, key(x)).GetOr(start(x)), x), k);
      var g := WithKey(init, key, k);
      if key(x) == k && g != [] {
        assert (g + [x])[..|g + [x]| - 1] == g;
      }
    }
  }

  /** The keys of the grouping Map are the keys of the elements, each once, in order of
      first appearance. */
  lemma {:induction false} AccumulateKeys<T, K, V>(xs: seq<T>, key: T -> K, start: T -> V, step: (V, T) -> V)
    ensures DistinctKeys(Accumulate(xs, key, start, step))
    ensures forall k :: k in Keys(Accumulate(xs, key, start, step)) <==> exists i | 0 <= i < |xs| :: key(xs[i]) == k
  {
    if xs != [] {
      var init := xs[..|xs| - 1];
      var x := xs[|xs| - 1];
      var r := Accumulate(init, key, start, step);
      AccumulateKeys(init, key, start, step);
      var v := step(Get(r, key(x)).GetOr(start(x)), x);
      PutDistinct(r, key(x), v);
      KeysPut(r, key(x), v);
      forall k ensures k in Keys(Put(r, key(x), v)) <==> exists i | 0 <= i < |xs| :: key(xs[i]) == k {
        if exists i | 0 <= i < |xs| :: key(xs[i]) == k {
          var i :| 0 <= i < |xs| && key(xs[i]) == k;
          if i < |init| { assert key(init[i]) == k; }
        }
      }
    }
  }

  /** The sum of the counts held in a counting Map. */
  function SumValues<K>(r: seq<(K, nat)>): nat
  {
    if r == [] then 0 else r[0].1 + SumValues(r[1..])
  }

  /** The sum of a five-entry list, written out. */
  lemma SumValuesFive<K>(r: seq<(K, nat)>)
    requires |r| == 5
    ensures SumValues(r) == r[0].1 + r[1].1 + r[2].1 + r[3].1 + r[4].1
  {
    assert SumValues(r[4..]) == r[4].1 by { assert r[4..][1..] == r[5..]; assert |r[5..]| == 0; }
    assert SumValues(r[3..]) == r[3].1 + SumValues(r[4..]) by { assert r[3..][1..] == r[4..]; }
    assert SumValues(r[2..]) == r[2].1 + SumValues(r[3..]) by { assert r[2..][1..] == r[3..]; }
    assert SumValues(r[1..]) == r[1].1 + SumValues(r[2..]) by { assert r[1..][1..] == r[2..]; }
  }

  /** Replacing one count changes the sum by the difference. */
  lemma {:induction false} SumValuesPut<K>(r: seq<(K, nat)>, k: K, v: nat)
    ensures SumValues(Put(r, k, v)) == SumValues(r) - Get(r, k).GetOr(0) + v
  {
    if r != [] && r[0].0 != k {
      SumValuesPut(r[1..], k, v);
    }
  }

  function CountStart<T>(x: T): nat { 0 }
  function CountStep<T>(n: nat, x: T): nat { n + 1 }

  /** `map.set(k, (map.get(k) || 0) + 1)` over every element: a count per key. */
  function CountBy<T, K(==)>(xs: seq<T>, key: T -> K): seq<(K, nat)>
  {
    Accumulate(xs, key, CountStart, CountStep)
  }

  lemma {:induction false} FoldCount<T>(ys: seq<T>)
    requires |ys| > 0
    ensures FoldGroup(ys, CountStart, CountStep) == |ys|
  {
    if |ys| > 1 {
      FoldCount(ys[..|ys| - 1]);
    }
  }

  /** Each key's count is the number of elements with that key. */
  lemma CountByGet<T, K>(xs: seq<T>, key: T -> K, k: K)
    ensures var n := |WithKey(xs, key, k)|;
      Get(CountBy(xs, key), k) == if n == 0 then None else Some(n)
  {
    AccumulateGet(xs, key, CountStart, CountStep, k);
    if WithKey(xs, key, k) != [] {
      FoldCount(WithKey(xs, key, k));
    }
  }

  /** The counts add up to the number of elements. */
  lemma {:induction false} CountBySum<T, K>(xs: seq<T>, key: T -> K)
    ensures SumValues(CountBy(xs, key)) == |xs|
  {
    if xs != [] {
      var init := xs[..|xs| - 1];
      var x := xs[|xs| - 1];
      var r := CountBy(init, key);
      CountBySum(init, key);
      SumValuesPut(r, key(x), Get(r, key(x)).GetOr(0) + 1);
    }
  }
}
