/**
  Python dictionaries whose iteration order matters, as association lists in
  insertion order. Assigning to an existing key keeps its position, as in
  Python. Also list.index.
 */
module Dicts {
  import opened Wrappers

  type Dict<K(==), V> = seq<(K, V)>

  function KeySet<K(==), V>(d: Dict<K, V>): (r: set<K>)
    ensures forall i :: 0 <= i < |d| ==> d[i].0 in r
    ensures forall k :: k in r ==> exists i :: 0 <= i < |d| && d[i].0 == k
  {
    if |d| == 0 then {} else {d[0].0} + KeySet(d[1..])
  }

  predicate DistinctKeys<K(==), V>(d: Dict<K, V>)
  {
    forall i, j :: 0 <= i < j < |d| ==> d[i].0 != d[j].0
  }

  /** d.get(k) */
  function Get<K(==), V>(d: Dict<K, V>, k: K): (r: Option<V>)
    ensures r.Some? <==> k in KeySet(d)
  {
    if |d| == 0 then None
    else if d[0].0 == k then Some(d[0].1)
    else
      Get(d[1..], k)
  }

  /** d[k] = v */
  function Put<K(==), V>(d: Dict<K, V>, k: K, v: V): (r: Dict<K, V>)
    ensures KeySet(r) == KeySet(d) + {k}
    ensures |r| == if k in KeySet(d) then |d| else |d| + 1
  {
    if |d| == 0 then [(k, v)]
    else
      if d[0].0 == k then
        var r := [(k, v)] + d[1..];
        assert r[1..] == d[1..];
        r
      else
        var tail := Put(d[1..], k, v);
        var r := [d[0]] + tail;
        assert r[1..] == tail;
        r
  }

  /** After d[k] = v, looking up k gives v and every other key is unchanged. */
  lemma {:induction false} PutGet<K, V>(d: Dict<K, V>, k: K, v: V, k': K)
    ensures Get(Put(d, k, v), k) == Some(v)
    ensures k' != k ==> Get(Put(d, k, v), k') == Get(d, k')
  {
    if |d| > 0 && d[0].0 != k {
      PutGet(d[1..], k, v, k');
      var tail := Put(d[1..], k, v);
      assert Put(d, k, v) == [d[0]] + tail;
      assert ([d[0]] + tail)[1..] == tail;
    } else if |d| > 0 {
      var r := [(k, v)] + d[1..];
      assert r[1..] == d[1..];
    }
  }

  lemma DistinctTail<K, V>(d: Dict<K, V>)
    requires |d| > 0 && DistinctKeys(d)
    ensures DistinctKeys(d[1..]) && d[0].0 !in KeySet(d[1..])
  {
    forall i | 0 <= i < |d[1..]| ensures d[1..][i].0 != d[0].0 {
      assert d[1..][i] == d[i + 1];
    }
    forall i, j | 0 <= i < j < |d[1..]| ensures d[1..][i].0 != d[1..][j].0 {
      assert d[1..][i] == d[i + 1] && d[1..][j] == d[j + 1];
    }
  }

  /** d[k] = v keeps the keys distinct. */
  lemma {:induction false} PutDistinct<K, V>(d: Dict<K, V>, k: K, v: V)
    requires DistinctKeys(d)
    ensures DistinctKeys(Put(d, k, v))
  {
    if |d| > 0 {
      var r := Put(d, k, v);
      DistinctTail(d);
      if d[0].0 != k {
        var tail := Put(d[1..], k, v);
        PutDistinct(d[1..], k, v);
        assert r == [d[0]] + tail;
        forall i, j | 0 <= i < j < |r| ensures r[i].0 != r[j].0 {
          if i == 0 {
            assert r[j] == tail[j - 1];
            assert tail[j - 1].0 in KeySet(tail);
          } else {
            assert r[i] == tail[i - 1] && r[j] == tail[j - 1];
          }
        }
      } else {
        assert r == [(k, v)] + d[1..];
        forall i, j | 0 <= i < j < |r| ensures r[i].0 != r[j].0 {
          assert r[j] == d[j];
          if i > 0 { assert r[i] == d[i]; }
        }
      }
    }
  }

  /** The value of the last pair with key k, if any. */
  function LastValue<K(==), V>(kvs: seq<(K, V)>, k: K): (r: Option<V>)
    ensures r.None? <==> forall i :: 0 <= i < |kvs| ==> kvs[i].0 != k
    ensures r.Some? ==> exists i :: 0 <= i < |kvs| && kvs[i] == (k, r.value) && forall j :: i < j < |kvs| ==> kvs[j].0 != k
  {
    if |kvs| == 0 then None
    else if kvs[|kvs| - 1].0 == k then Some(kvs[|kvs| - 1].1)
    else
      var r := LastValue(kvs[..|kvs| - 1], k);
      LastOfPrefix(kvs, k, r);
      r
  }

  /** A last value of k among all but the last pair stays the last value when the last pair has another key. */
  lemma LastOfPrefix<K, V>(kvs: seq<(K, V)>, k: K, r: Option<V>)
    requires |kvs| > 0 && kvs[|kvs| - 1].0 != k
    requires var p := kvs[..|kvs| - 1];
             && (r.None? <==> forall i :: 0 <= i < |p| ==> p[i].0 != k)
             && (r.Some? ==> exists i :: 0 <= i < |p| && p[i] == (k, r.value) && forall j :: i < j < |p| ==> p[j].0 != k)
    ensures r.None? <==> forall i :: 0 <= i < |kvs| ==> kvs[i].0 != k
    ensures r.Some? ==> exists i :: 0 <= i < |kvs| && kvs[i] == (k, r.value) && forall j :: i < j < |kvs| ==> kvs[j].0 != k
  {
    var p := kvs[..|kvs| - 1];
    assert forall i :: 0 <= i < |p| ==> p[i] == kvs[i];
    if r.Some? {
      var i :| 0 <= i < |p| && p[i] == (k, r.value) && forall j :: i < j < |p| ==> p[j].0 != k;
      assert kvs[i] == (k, r.value);
    }
  }

  /** The pair at i is the last with key k, so its value is the last value of k. */
  lemma LastValueAt<K, V>(kvs: seq<(K, V)>, i: nat, k: K)
    requires i < |kvs| && kvs[i].0 == k && forall j :: i < j < |kvs| ==> kvs[j].0 != k
    ensures LastValue(kvs, k) == Some(kvs[i].1)
  {
    var r := LastValue(kvs, k);
    var i' :| 0 <= i' < |kvs| && kvs[i'] == (k, r.value) && forall j :: i' < j < |kvs| ==> kvs[j].0 != k;
    assert i' == i;
  }

  /** The last value of k in a + b is b's, if b has k at all. */
  lemma {:induction false} LastValueConcat<K, V>(a: seq<(K, V)>, b: seq<(K, V)>, k: K)
    ensures LastValue(a + b, k) == if LastValue(b, k).Some? then LastValue(b, k) else LastValue(a, k)
  {
    if |b| == 0 {
      assert a + b == a;
    } else {
      var n := |b|;
      assert (a + b)[..|a + b| - 1] == a + b[..n - 1];
      LastValueConcat(a, b[..n - 1], k);
    }
  }

  /** Looking up in a concatenation: the first part wins. */
  lemma {:induction false} GetAppend<K, V>(a: Dict<K, V>, b: Dict<K, V>, k: K)
    ensures Get(a + b, k) == if Get(a, k).Some? then Get(a, k) else Get(b, k)
  {
    if |a| > 0 {
      assert (a + b)[1..] == a[1..] + b;
      GetAppend(a[1..], b, k);
    } else {
      assert a + b == b;
    }
  }

  /** Looking up in a dict with one more pair at the end. */
  lemma {:induction false} GetSnoc<K, V>(d: Dict<K, V>, x: (K, V), k: K)
    ensures Get(d + [x], k) == if Get(d, k).Some? then Get(d, k) else if x.0 == k then Some(x.1) else None
  {
    if |d| > 0 {
      assert (d + [x])[1..] == d[1..] + [x];
      GetSnoc(d[1..], x, k);
    }
  }

  /** d[k1] = v1, then d[k2] = v2, and so on, in order. */
  function PutAll<K(==), V>(d: Dict<K, V>, kvs: seq<(K, V)>): Dict<K, V>
  {
    if |kvs| == 0 then d else Put(PutAll(d, kvs[..|kvs| - 1]), kvs[|kvs| - 1].0, kvs[|kvs| - 1].1)
  }

  /** After a run of assignments, a key holds the last value assigned to it, or its old value if none was. */
  lemma {:induction false} PutAllGet<K, V>(d: Dict<K, V>, kvs: seq<(K, V)>, k: K)
    ensures Get(PutAll(d, kvs), k) == if LastValue(kvs, k).Some? then LastValue(kvs, k) else Get(d, k)
  {
    if |kvs| > 0 {
      var n := |kvs|;
      PutAllGet(d, kvs[..n - 1], k);
      PutGet(PutAll(d, kvs[..n - 1]), kvs[n - 1].0, kvs[n - 1].1, k);
    }
  }

  lemma PutAllOne<K, V>(d: Dict<K, V>, x: (K, V))
    ensures PutAll(d, [x]) == Put(d, x.0, x.1)
  {
    assert [x][..0] == [];
  }

  /** Two runs of assignments in a row are one run of their concatenation. */
  lemma {:induction false} PutAllConcat<K, V>(d: Dict<K, V>, a: seq<(K, V)>, b: seq<(K, V)>)
    ensures PutAll(d, a + b) == PutAll(PutAll(d, a), b)
  {
    if |b| == 0 {
      assert a + b == a;
    } else {
      var n := |b|;
      assert (a + b)[..|a + b| - 1] == a + b[..n - 1];
      PutAllConcat(d, a, b[..n - 1]);
    }
  }

  /** Applies f to every value, keeping keys and order. */
  function MapValues<K(==), V>(d: Dict<K, V>, f: V -> V): (r: Dict<K, V>)
    ensures |r| == |d|
    ensures forall i :: 0 <= i < |d| ==> r[i] == (d[i].0, f(d[i].1))
  {
    seq(|d|, i requires 0 <= i < |d| => (d[i].0, f(d[i].1)))
  }

  /** sum(d.values()) */
  function SumValues<K(==)>(d: Dict<K, real>): real
  {
    if |d| == 0 then 0.0 else SumValues(d[..|d| - 1]) + d[|d| - 1].1
  }

  /** list.index(x): the first position of x. */
  function IndexOf<T(==)>(s: seq<T>, x: T): (i: nat)
    requires x in s
    ensures i < |s| && s[i] == x
    ensures forall j :: 0 <= j < i ==> s[j] != x
  {
    if s[0] == x then 0 else 1 + IndexOf(s[1..], x)
  }

  /** d[k] = v for each pair whose value is there, in order; pairs without a value write nothing. */
  function PutSome<K(==), V>(d: Dict<K, V>, kvs: seq<(K, Option<V>)>): Dict<K, V>
  {
    if |kvs| == 0 then d
    else
      var p := PutSome(d, kvs[..|kvs| - 1]);
      var x := kvs[|kvs| - 1];
      if x.1.Some? then Put(p, x.0, x.1.value) else p
  }

  /** The last pair writes its key when it has a value; every other key reads as before it. */
  lemma PutSomeLast<K, V>(d: Dict<K, V>, kvs: seq<(K, Option<V>)>, k: K)
    requires |kvs| > 0
    ensures var x := kvs[|kvs| - 1];
            Get(PutSome(d, kvs), k) == if x.0 == k && x.1.Some? then x.1 else Get(PutSome(d, kvs[..|kvs| - 1]), k)
  {
    var x := kvs[|kvs| - 1];
    if x.1.Some? {
      PutGet(PutSome(d, kvs[..|kvs| - 1]), x.0, x.1.value, k);
    }
  }

  /** With distinct keys among the pairs, each key holds its own pair's value (or its old value if the pair has none). */
  lemma {:induction false} PutSomeGet<K, V>(d: Dict<K, V>, kvs: seq<(K, Option<V>)>, k: K)
    requires DistinctKeys(kvs)
    ensures forall i :: 0 <= i < |kvs| && kvs[i].0 == k ==>
              Get(PutSome(d, kvs), k) == if kvs[i].1.Some? then kvs[i].1 else Get(d, k)
    ensures (forall i :: 0 <= i < |kvs| ==> kvs[i].0 != k) ==> Get(PutSome(d, kvs), k) == Get(d, k)
  {
    if |kvs| > 0 {
      var n := |kvs|;
      var x := kvs[n - 1];
      var p := kvs[..n - 1];
      assert DistinctKeys(p) by {
        assert forall i :: 0 <= i < n - 1 ==> p[i] == kvs[i];
      }
      PutSomeLast(d, kvs, k);
      PutSomeGet(d, p, k);
      if x.0 == k {
        forall i | 0 <= i < n - 1
          ensures p[i].0 != k
        {
          assert kvs[i].0 != kvs[n - 1].0;
        }
      } else {
        forall i | 0 <= i < n && kvs[i].0 == k
          ensures i < n - 1 && p[i] == kvs[i]
        {
        }
      }
    }
  }
}
