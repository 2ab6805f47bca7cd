/**
 * `sort_values(ascending=False).head(n)` and `value_counts().head(n)` over a
 * per-key aggregate: the n keys with the largest values, largest first. The
 * order among equal values is whatever the sort produced and is not promised.
 */
module Ranking {

  /** The keys that appear in a ranking. */
  function KeysOf<K>(r: seq<(K, int)>): set<K> {
    set i | 0 <= i < |r| :: r[i].0
  }

  /** A key with the largest value exists in every non-empty map. */
  lemma {:induction false} MaxKeyExists<K>(m: map<K, int>)
    requires |m| != 0
    ensures exists k :: k in m && forall j :: j in m ==> m[j] <= m[k]
    decreases m.Keys
  {
    var a :| a in m;
    var rest := m - {a};
    assert rest.Keys < m.Keys;
    if m.Keys == {a} {
      assert forall j :: j in m ==> m[j] <= m[a];
    } else {
      assert rest.Keys != {} by {
        var c :| c in m.Keys && c != a;
        assert c in rest.Keys;
      }
      MaxKeyExists(rest);
      var b :| b in rest && forall j :: j in rest ==> rest[j] <= rest[b];
      MaxOfAdded(m, a, b);
    }
  }

  /** The larger of `a` and the largest key `b` of the rest is the largest key of `m`. */
  lemma MaxOfAdded<K>(m: map<K, int>, a: K, b: K)
    requires a in m && b in m - {a}
    requires forall j :: j in m - {a} ==> (m - {a})[j] <= (m - {a})[b]
    ensures var top := if m[a] < m[b] then b else a;
      top in m && forall j :: j in m ==> m[j] <= m[top]
  {
    var rest := m - {a};
    forall j | j in m ensures m[j] <= m[b] || j == a {
      if j != a { assert j in rest; }
    }
  }

  /** A key with the largest value; which one among equals is not specified. */
  ghost function MaxKey<K>(m: map<K, int>): (k: K)
    requires |m| != 0
    ensures k in m && forall j :: j in m ==> m[j] <= m[k]
  {
    MaxKeyExists(m);
    var k :| k in m && forall j :: j in m ==> m[j] <= m[k];
    k
  }

  /** Every entry of `r` is an entry of `m`. */
  ghost predicate EntriesOf<K>(m: map<K, int>, r: seq<(K, int)>) {
    forall i :: 0 <= i < |r| ==> r[i].0 in m && r[i].1 == m[r[i].0]
  }

  /** No key appears twice in `r`. */
  ghost predicate DistinctKeys<K>(r: seq<(K, int)>) {
    forall i, j :: 0 <= i < j < |r| ==> r[i].0 != r[j].0
  }

  /** The values of `r` never increase. */
  ghost predicate NonIncreasing<K>(r: seq<(K, int)>) {
    forall i, j :: 0 <= i < j < |r| ==> r[i].1 >= r[j].1
  }

  /** No key of `m` left out of `r` has a value above one kept in `r`. */
  ghost predicate NoneLeftAbove<K>(m: map<K, int>, r: seq<(K, int)>) {
    forall k :: k in m && k !in KeysOf(r) ==> forall i :: 0 <= i < |r| ==> m[k] <= r[i].1
  }

  /**
   * What a ranking of the `n` largest entries of `m` is: as many entries as
   * `n` or as the map has, each an entry of the map, no key twice, values
   * non-increasing, and no key left out with a value above a retained one.
   */
  ghost predicate IsTopRanking<K>(m: map<K, int>, n: nat, r: seq<(K, int)>) {
    && |r| == (if |m| < n then |m| else n)
    && EntriesOf(m, r)
    && DistinctKeys(r)
    && NonIncreasing(r)
    && NoneLeftAbove(m, r)
  }

  /** Putting a largest entry in front of a ranking of the rest ranks the whole map. */
  lemma RankingCons<K>(m: map<K, int>, n: nat, k: K, tail: seq<(K, int)>)
    requires n > 0 && k in m && forall j :: j in m ==> m[j] <= m[k]
    requires IsTopRanking(m - {k}, n - 1, tail)
    ensures IsTopRanking(m, n, [(k, m[k])] + tail)
  {
    var rest := m - {k};
    assert |rest| == |m| - 1 by {
      assert m.Keys == rest.Keys + {k} && k !in rest.Keys;
    }
    ConsEntries(m, k, tail);
    ConsDistinct(m, k, tail);
    ConsNonIncreasing(m, k, tail);
    ConsNoneLeftAbove(m, k, tail);
  }

  lemma ConsEntries<K>(m: map<K, int>, k: K, tail: seq<(K, int)>)
    requires k in m && EntriesOf(m - {k}, tail)
    ensures EntriesOf(m, [(k, m[k])] + tail)
  {
    var r := [(k, m[k])] + tail;
    forall i | 0 <= i < |r| ensures r[i].0 in m && r[i].1 == m[r[i].0] {
      if i > 0 { assert r[i] == tail[i - 1]; }
    }
  }

  lemma ConsDistinct<K>(m: map<K, int>, k: K, tail: seq<(K, int)>)
    requires k in m && EntriesOf(m - {k}, tail) && DistinctKeys(tail)
    ensures DistinctKeys([(k, m[k])] + tail)
  {
    var r := [(k, m[k])] + tail;
    forall i, j | 0 <= i < j < |r| ensures r[i].0 != r[j].0 {
      assert r[j] == tail[j - 1];
      assert r[j].0 in m - {k};
      if i > 0 { assert r[i] == tail[i - 1]; }
    }
  }

  lemma ConsNonIncreasing<K>(m: map<K, int>, k: K, tail: seq<(K, int)>)
    requires k in m && forall j :: j in m ==> m[j] <= m[k]
    requires EntriesOf(m - {k}, tail) && NonIncreasing(tail)
    ensures NonIncreasing([(k, m[k])] + tail)
  {
    var r := [(k, m[k])] + tail;
    forall i, j | 0 <= i < j < |r| ensures r[i].1 >= r[j].1 {
      assert r[j] == tail[j - 1];
      assert r[j].0 in m;
      if i > 0 { assert r[i] == tail[i - 1]; }
    }
  }

  lemma ConsNoneLeftAbove<K>(m: map<K, int>, k: K, tail: seq<(K, int)>)
    requires k in m && forall j :: j in m ==> m[j] <= m[k]
    requires NoneLeftAbove(m - {k}, tail)
    ensures NoneLeftAbove(m, [(k, m[k])] + tail)
  {
    var r := [(k, m[k])] + tail;
    forall y | y in KeysOf(tail) ensures y in KeysOf(r) {
      var i :| 0 <= i < |tail| && tail[i].0 == y;
      assert r[i + 1] == tail[i];
    }
    forall x | x in m && x !in KeysOf(r) ensures forall i :: 0 <= i < |r| ==> m[x] <= r[i].1 {
      assert x != k by { assert r[0].0 == k; }
      assert x in m - {k} && x !in KeysOf(tail);
      forall i | 0 <= i < |r| ensures m[x] <= r[i].1 {
        if i > 0 { assert r[i] == tail[i - 1]; }
      }
    }
  }

  /**
   * `sort_values(ascending=False).head(n)`: the `n` entries of `m` with the
   * largest values, largest first.
   */
  ghost function TopK<K>(m: map<K, int>, n: nat): (r: seq<(K, int)>)
    ensures IsTopRanking(m, n, r)
    decreases n
  {
    if n == 0 || |m| == 0 then []
    else
      var k := MaxKey(m);
      var tail := TopK(m - {k}, n - 1);
      RankingCons(m, n, k, tail);
      [(k, m[k])] + tail
  }

  /**
   * The ranking respects the values: when a key has a larger value than a
   * ranked key, it is ranked too, and ahead of it. (In the crash ranking, an
   * operator with 3 records cannot outrank one with 20.)
   */
  lemma TopKRespectsOrder<K>(m: map<K, int>, n: nat, lo: K, hi: K)
    requires lo in m && hi in m && m[lo] < m[hi]
    requires lo in KeysOf(TopK(m, n))
    ensures hi in KeysOf(TopK(m, n))
    ensures forall i, j ::
      (0 <= i < |TopK(m, n)| && 0 <= j < |TopK(m, n)| && TopK(m, n)[i].0 == hi && TopK(m, n)[j].0 == lo) ==> i < j
  {
    var r := TopK(m, n);
    var j :| 0 <= j < |r| && r[j].0 == lo;
    assert r[j].1 == m[lo];
  }

  /**
   * `head(p)` of a ranking of the `n` largest is the ranking of the `p`
   * largest, for `p <= n`: the top five printed at the end are the first
   * five of the top ten.
   */
  lemma RankingPrefix<K>(m: map<K, int>, n: nat, r: seq<(K, int)>, p: nat)
    requires IsTopRanking(m, n, r) && p <= n
    ensures IsTopRanking(m, p, r[..if |r| < p then |r| else p])
  {
    var q := r[..if |r| < p then |r| else p];
    assert forall i :: 0 <= i < |q| ==> q[i] == r[i];
    PrefixNoneLeftAbove(m, r, |q|);
  }

  /** What a ranking leaves out, its first entries leave out too, and no such key outranks them. */
  lemma PrefixNoneLeftAbove<K>(m: map<K, int>, r: seq<(K, int)>, len: nat)
    requires len <= |r| && EntriesOf(m, r) && NonIncreasing(r) && NoneLeftAbove(m, r)
    ensures NoneLeftAbove(m, r[..len])
  {
    var q := r[..len];
    forall x | x in m && x !in KeysOf(q) ensures forall i :: 0 <= i < |q| ==> m[x] <= q[i].1 {
      forall i | 0 <= i < |q| ensures m[x] <= q[i].1 {
        assert q[i] == r[i];
        if x in KeysOf(r) {
          var j :| 0 <= j < |r| && r[j].0 == x;
          assert forall k :: 0 <= k < |q| ==> q[k] == r[k];
          assert j >= |q|;
        }
      }
    }
  }
}
