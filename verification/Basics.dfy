/** Types shared by every module, and finite sums over maps. */
module Basics {

  datatype Option<+T> = None | Some(value: T)

  newtype Byte = n: int | 0 <= n < 256

  type Bytes = seq<Byte>

  function Min(a: int, b: int): int {
    if a <= b then a else b
  }

  function Max(a: int, b: int): int {
    if a <= b then b else a
  }

  ghost function Pick<T>(s: set<T>): (x: T)
    requires s != {}
    ensures x in s
  {
    var x :| x in s;
    x
  }

  /** The sum of the values of a map, taken in some order. */
  ghost function Sum<K>(m: map<K, nat>): nat
    decreases |m|
  {
    if m == map[] then 0
    else
      var k :| k in m;
      assert |m - {k}| < |m| by { assert m.Keys == (m - {k}).Keys + {k}; }
      m[k] + Sum(m - {k})
  }

  /** The order in which a sum is taken does not matter: any key may go first. */
  lemma {:induction false} SumRemove<K>(m: map<K, nat>, k: K)
    requires k in m
    ensures Sum(m) == m[k] + Sum(m - {k})
    decreases |m|
  {
    assert |m - {k}| < |m| by { assert m.Keys == (m - {k}).Keys + {k}; }
    var first :| first in m && Sum(m) == m[first] + Sum(m - {first});
    if first != k {
      assert |m - {first}| < |m| by { assert m.Keys == (m - {first}).Keys + {first}; }
      SumRemove(m - {first}, k);
      SumRemove(m - {k}, first);
      assert m - {first} - {k} == m - {k} - {first};
    }
  }

  lemma SumInsert<K>(m: map<K, nat>, k: K, v: nat)
    requires k !in m
    ensures Sum(m[k := v]) == Sum(m) + v
  {
    SumRemove(m[k := v], k);
    assert m[k := v] - {k} == m;
  }

  /** A map is split by a set of keys into two parts whose sums add up. */
  lemma {:induction false} SumSplit<K>(m: map<K, nat>, ks: set<K>)
    ensures Sum(m) == Sum(m - ks) + Sum(map k | k in m && k in ks :: m[k])
    decreases |m.Keys * ks|
  {
    var part := map k | k in m && k in ks :: m[k];
    if m.Keys * ks == {} {
      assert forall k | k in m :: k in ks ==> k in m.Keys * ks;
      assert m - ks == m;
      assert part == map[];
    } else {
      var k :| k in m.Keys * ks;
      var rest := m - {k};
      SumRemove(m, k);
      assert rest.Keys * ks == m.Keys * ks - {k};
      SumSplit(rest, ks);
      SumRemove(part, k);
      assert part - {k} == map j | j in rest && j in ks :: rest[j];
      assert rest - ks == m - ks;
    }
  }

  /** Fewer keys with pointwise smaller values give a smaller sum. */
  lemma {:induction false} SumAtMost<K>(small: map<K, nat>, large: map<K, nat>)
    requires small.Keys <= large.Keys
    requires forall k | k in small :: small[k] <= large[k]
    ensures Sum(small) <= Sum(large)
    decreases |small|
  {
    if small != map[] {
      var k :| k in small;
      SumRemove(small, k);
      SumRemove(large, k);
      assert |small - {k}| < |small| by { assert small.Keys == (small - {k}).Keys + {k}; }
      SumAtMost(small - {k}, large - {k});
    }
  }

  /** Pigeonhole: a map that is injective on a set embeds the set into its image. */
  lemma {:induction false} InjectionBoundsSize<A, B>(f: map<A, B>, image: set<B>)
    requires forall a | a in f :: f[a] in image
    requires forall a, b | a in f && b in f && f[a] == f[b] :: a == b
    ensures |f| <= |image|
    decreases |f|
  {
    if f != map[] {
      var a :| a in f;
      assert |f - {a}| < |f| by { assert f.Keys == (f - {a}).Keys + {a}; }
      assert f.Keys == (f - {a}).Keys + {a};
      InjectionBoundsSize(f - {a}, image - {f[a]});
    }
  }

  ghost predicate Distinct<T>(s: seq<T>) {
    forall i, j | 0 <= i < j < |s| :: s[i] != s[j]
  }

  /** A sequence without repetitions is as long as its set of elements. */
  lemma {:induction false} DistinctSize<T>(s: seq<T>)
    requires Distinct(s)
    ensures |set x | x in s| == |s|
  {
    if s != [] {
      var last := |s| - 1;
      DistinctSize(s[..last]);
      assert (set x | x in s) == (set x | x in s[..last]) + {s[last]} by {
        assert s == s[..last] + [s[last]];
      }
    } else {
      assert (set x | x in s) == {};
    }
  }
}
