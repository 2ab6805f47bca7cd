/**
 * The group-by reductions the script asks of pandas: `groupby(key).size()`
 * and `value_counts()` (a count per key), and `groupby(key)[col].sum()` (a
 * sum per key). Records whose key is missing are left out of every group
 * (`dropna=True`), and a sum skips missing values, so a group whose values
 * are all missing sums to 0.
 */
module Grouping {
  import opened Wrappers

  // ---------------------------------------------------------------------
  // Sums that skip missing values
  // ---------------------------------------------------------------------

  /** `Series.sum()`: the sum of the present values; 0 for none. */
  function SumPresent(vs: seq<Option<int>>): int
    decreases |vs|
  {
    if vs == [] then 0
    else (if vs[0].Some? then vs[0].value else 0) + SumPresent(vs[1..])
  }

  /** Values that are all missing sum to 0, never to a missing value. */
  lemma {:induction false} SumPresentAllMissing(vs: seq<Option<int>>)
    requires forall i :: 0 <= i < |vs| ==> vs[i].None?
    ensures SumPresent(vs) == 0
    decreases |vs|
  {
    if vs != [] {
      SumPresentAllMissing(vs[1..]);
    }
  }

  lemma {:induction false} SumPresentAppend(a: seq<Option<int>>, b: seq<Option<int>>)
    ensures SumPresent(a + b) == SumPresent(a) + SumPresent(b)
    decreases |a|
  {
    if a != [] {
      assert (a + b)[1..] == a[1..] + b;
      SumPresentAppend(a[1..], b);
    } else {
      assert a + b == b;
    }
  }

  /** Where every `ds[i]` is `as_[i] - fs[i]` with both present, the sums subtract. */
  lemma {:induction false} SumPresentDifference(as_: seq<Option<int>>, fs: seq<Option<int>>, ds: seq<Option<int>>)
    requires |as_| == |fs| == |ds|
    requires forall i :: 0 <= i < |ds| ==>
      as_[i].Some? && fs[i].Some? && ds[i] == Some(as_[i].value - fs[i].value)
    ensures SumPresent(ds) == SumPresent(as_) - SumPresent(fs)
    decreases |ds|
  {
    if ds != [] {
      SumPresentDifference(as_[1..], fs[1..], ds[1..]);
    }
  }

  /** The values of the records whose key is `k`, in record order. */
  function ValuesOf<K(==)>(ks: seq<Option<K>>, vs: seq<Option<int>>, k: K): (r: seq<Option<int>>)
    requires |ks| == |vs|
    ensures |r| == multiset(ks)[Some(k)]
    decreases |ks|
  {
    if ks == [] then []
    else
      assert ks == [ks[0]] + ks[1..];
      (if ks[0] == Some(k) then [vs[0]] else []) + ValuesOf(ks[1..], vs[1..], k)
  }

  /** The values of the records that have a key at all. */
  function KeyedValues<K(==)>(ks: seq<Option<K>>, vs: seq<Option<int>>): (r: seq<Option<int>>)
    requires |ks| == |vs|
    ensures |r| <= |ks|
    decreases |ks|
  {
    if ks == [] then []
    else
      (if ks[0].Some? then [vs[0]] else []) + KeyedValues(ks[1..], vs[1..])
  }

  /** When every record has a key, no value is left out. */
  lemma {:induction false} KeyedValuesAllKeyed<K>(ks: seq<Option<K>>, vs: seq<Option<int>>)
    requires |ks| == |vs|
    requires forall i :: 0 <= i < |ks| ==> ks[i].Some?
    ensures KeyedValues(ks, vs) == vs
    decreases |ks|
  {
    if ks != [] {
      KeyedValuesAllKeyed(ks[1..], vs[1..]);
      assert vs == [vs[0]] + vs[1..];
    }
  }

  // ---------------------------------------------------------------------
  // The total of a map's values
  // ---------------------------------------------------------------------

  /** Some key of a non-empty map. */
  ghost function AnyKey<K>(m: map<K, int>): (k: K)
    requires |m| != 0
    ensures k in m
  {
    assert m.Keys != {};
    var k :| k in m.Keys; k
  }

  /** The sum of all values of a map, in no particular order. */
  ghost function MapTotal<K>(m: map<K, int>): int
    decreases |m|
  {
    if |m| == 0 then 0
    else
      var k := AnyKey(m);
      RemoveSize(m, k);
      m[k] + MapTotal(m - {k})
  }

  /** Removing a key of a map leaves one entry fewer. */
  lemma RemoveSize<K>(m: map<K, int>, k: K)
    requires k in m
    ensures |m - {k}| == |m| - 1
  {
    assert m.Keys == (m - {k}).Keys + {k};
  }

  /** The total can be split at any key. */
  lemma {:induction false} MapTotalAt<K>(m: map<K, int>, k: K)
    requires k in m
    ensures MapTotal(m) == m[k] + MapTotal(m - {k})
    decreases |m|
  {
    assert |m| != 0 by { assert k in m.Keys; }
    var j := AnyKey(m);
    assert MapTotal(m) == m[j] + MapTotal(m - {j});
    if j != k {
      var mj, mk := m - {j}, m - {k};
      RemoveSize(m, j);
      RemoveSize(m, k);
      assert k in mj && j in mk;
      MapTotalAt(mj, k);
      MapTotalAt(mk, j);
      assert mj - {k} == mk - {j};
      assert mj[k] == m[k] && mk[j] == m[j];
    }
  }

  /** Changing one value changes the total by the difference. */
  lemma MapTotalUpdate<K>(m: map<K, int>, k: K, v: int)
    ensures k in m ==> MapTotal(m[k := v]) == MapTotal(m) - m[k] + v
    ensures k !in m ==> MapTotal(m[k := v]) == MapTotal(m) + v
  {
    MapTotalAt(m[k := v], k);
    if k in m {
      MapTotalAt(m, k);
      assert m[k := v] - {k} == m - {k};
    } else {
      assert m[k := v] - {k} == m;
    }
  }

  // ---------------------------------------------------------------------
  // Count per key
  // ---------------------------------------------------------------------

  /** Adds one to the count of a present key. */
  function Bump<K>(m: map<K, nat>, key: Option<K>): map<K, nat> {
    match key
    case None => m
    case Some(k) => m[k := if k in m then m[k] + 1 else 1]
  }

  /**
   * `groupby(key).size()` / `value_counts()`: every present key is mapped to
   * the number of records that carry it; missing keys form no group.
   */
  function GroupCount<K(==, !new)>(ks: seq<Option<K>>): (m: map<K, nat>)
    ensures forall k :: k in m <==> Some(k) in ks
    ensures forall k :: k in m ==> m[k] == multiset(ks)[Some(k)]
    decreases |ks|
  {
    if ks == [] then map[]
    else
      assert ks == [ks[0]] + ks[1..];
      Bump(GroupCount(ks[1..]), ks[0])
  }

  /** The counts add up to the number of records that have a key. */
  lemma {:induction false} GroupCountTotal<K(!new)>(ks: seq<Option<K>>)
    ensures MapTotal(GroupCount(ks)) == |ks| - multiset(ks)[None]
    decreases |ks|
  {
    if ks == [] {
      assert GroupCount(ks) == map[];
    } else {
      assert ks == [ks[0]] + ks[1..];
      GroupCountTotal(ks[1..]);
      var m := GroupCount(ks[1..]);
      if ks[0].Some? {
        var k := ks[0].value;
        MapTotalUpdate(m, k, if k in m then m[k] + 1 else 1);
      }
    }
  }

  // ---------------------------------------------------------------------
  // Sum per key
  // ---------------------------------------------------------------------

  /** Adds a value, when present, to the sum of a present key; the key's group exists either way. */
  function AddTo<K>(m: map<K, int>, key: Option<K>, v: Option<int>): map<K, int> {
    match key
    case None => m
    case Some(k) =>
      var x := if v.Some? then v.value else 0;
      m[k := if k in m then m[k] + x else x]
  }

  /** Adding a record to the groups adds its value, when present and keyed, to the total. */
  lemma AddToTotal<K>(m: map<K, int>, key: Option<K>, v: Option<int>)
    ensures MapTotal(AddTo(m, key, v)) == MapTotal(m) + (if key.Some? && v.Some? then v.value else 0)
  {
    if key.Some? {
      var k, x := key.value, if v.Some? then v.value else 0;
      var nv := if k in m then m[k] + x else x;
      assert AddTo(m, key, v) == m[k := nv];
      MapTotalUpdate(m, k, nv);
    } else {
      assert AddTo(m, key, v) == m;
    }
  }

  /**
   * `groupby(key)[col].sum()`: every present key is mapped to the sum of the
   * present values of the records that carry it.
   */
  function GroupSum<K(==, !new)>(ks: seq<Option<K>>, vs: seq<Option<int>>): (m: map<K, int>)
    requires |ks| == |vs|
    ensures forall k :: k in m <==> Some(k) in ks
    decreases |ks|
  {
    if ks == [] then map[] else AddTo(GroupSum(ks[1..], vs[1..]), ks[0], vs[0])
  }

  /** The sum of a group is the sum of the present values of exactly the records that carry its key. */
  lemma {:induction false} GroupSumValue<K(!new)>(ks: seq<Option<K>>, vs: seq<Option<int>>, k: K)
    requires |ks| == |vs| && Some(k) in ks
    ensures GroupSum(ks, vs)[k] == SumPresent(ValuesOf(ks, vs, k))
    decreases |ks|
  {
    if Some(k) in ks[1..] {
      GroupSumValue(ks[1..], vs[1..], k);
      GroupSumFirst(ks, vs, k);
    } else {
      ValuesOfAbsent(ks[1..], vs[1..], k);
      assert ks[0] == Some(k) by {
        assert ks == [ks[0]] + ks[1..];
      }
      GroupSumFirst(ks, vs, k);
    }
  }

  /** A key that no record carries has no values. */
  lemma ValuesOfAbsent<K(!new)>(ks: seq<Option<K>>, vs: seq<Option<int>>, k: K)
    requires |ks| == |vs| && Some(k) !in ks
    ensures ValuesOf(ks, vs, k) == []
  {
    assert multiset(ks)[Some(k)] == 0;
  }

  /** One step of `GroupSumValue`: the first record's value joins the sum of its group. */
  lemma GroupSumFirst<K(!new)>(ks: seq<Option<K>>, vs: seq<Option<int>>, k: K)
    requires |ks| == |vs| && Some(k) in ks
    requires Some(k) in ks[1..] ==>
      GroupSum(ks[1..], vs[1..])[k] == SumPresent(ValuesOf(ks[1..], vs[1..], k))
    requires Some(k) !in ks[1..] ==> ValuesOf(ks[1..], vs[1..], k) == []
    ensures GroupSum(ks, vs)[k] == SumPresent(ValuesOf(ks, vs, k))
  {
    var m := GroupSum(ks[1..], vs[1..]);
    var rest := ValuesOf(ks[1..], vs[1..], k);
    GroupSumHead(ks, vs, k);
    ValuesOfHead(ks, vs, k);
    if k !in m {
      assert SumPresent(rest) == 0;
    }
  }

  /** The group of `k` after adding the first record to the groups of the others. */
  lemma GroupSumHead<K(!new)>(ks: seq<Option<K>>, vs: seq<Option<int>>, k: K)
    requires |ks| == |vs| && ks != []
    ensures var m, x := GroupSum(ks[1..], vs[1..]), if vs[0].Some? then vs[0].value else 0;
      k in GroupSum(ks, vs) ==>
        GroupSum(ks, vs)[k] == (if ks[0] == Some(k) then x else 0) + (if k in m then m[k] else 0)
  {
    GroupSumStep(ks, vs);
  }

  /** The values of `k`'s records: the first record's, when it carries `k`, then the others'. */
  lemma ValuesOfHead<K(!new)>(ks: seq<Option<K>>, vs: seq<Option<int>>, k: K)
    requires |ks| == |vs| && ks != []
    ensures SumPresent(ValuesOf(ks, vs, k)) ==
      (if ks[0] == Some(k) && vs[0].Some? then vs[0].value else 0) + SumPresent(ValuesOf(ks[1..], vs[1..], k))
  {
    var rest := ValuesOf(ks[1..], vs[1..], k);
    if ks[0] == Some(k) {
      assert ValuesOf(ks, vs, k) == [vs[0]] + rest;
      SumPresentAppend([vs[0]], rest);
    } else {
      assert ValuesOf(ks, vs, k) == rest;
    }
  }

  /** A group whose values are all missing sums to 0. */
  lemma {:induction false} GroupSumAllMissing<K(!new)>(ks: seq<Option<K>>, vs: seq<Option<int>>, k: K)
    requires |ks| == |vs| && Some(k) in ks
    requires forall i :: 0 <= i < |ks| && ks[i] == Some(k) ==> vs[i].None?
    ensures k in GroupSum(ks, vs) && GroupSum(ks, vs)[k] == 0
  {
    GroupSumValue(ks, vs, k);
    ValuesOfAllMissing(ks, vs, k);
    SumPresentAllMissing(ValuesOf(ks, vs, k));
  }

  lemma {:induction false} ValuesOfAllMissing<K>(ks: seq<Option<K>>, vs: seq<Option<int>>, k: K)
    requires |ks| == |vs|
    requires forall i :: 0 <= i < |ks| && ks[i] == Some(k) ==> vs[i].None?
    ensures forall i :: 0 <= i < |ValuesOf(ks, vs, k)| ==> ValuesOf(ks, vs, k)[i].None?
    decreases |ks|
  {
    if ks != [] {
      assert forall i :: 0 <= i < |ks| - 1 && ks[1..][i] == Some(k) ==> vs[1..][i].None? by {
        forall i | 0 <= i < |ks| - 1 && ks[1..][i] == Some(k) ensures vs[1..][i].None? {
          assert ks[i + 1] == ks[1..][i];
        }
      }
      ValuesOfAllMissing(ks[1..], vs[1..], k);
    }
  }

  /** Adding the first record to the groups of the others. */
  lemma GroupSumStep<K(!new)>(ks: seq<Option<K>>, vs: seq<Option<int>>)
    requires |ks| == |vs| && ks != []
    ensures GroupSum(ks, vs) == AddTo(GroupSum(ks[1..], vs[1..]), ks[0], vs[0])
  {
  }

  /** The per-key sums add up to the sum over all records that have a key. */
  lemma {:induction false} GroupSumTotal<K(!new)>(ks: seq<Option<K>>, vs: seq<Option<int>>)
    requires |ks| == |vs|
    ensures MapTotal(GroupSum(ks, vs)) == SumPresent(KeyedValues(ks, vs))
    decreases |ks|
  {
    if ks == [] {
      assert GroupSum(ks, vs) == map[];
    } else {
      GroupSumTotal(ks[1..], vs[1..]);
      GroupSumStep(ks, vs);
      AddToTotal(GroupSum(ks[1..], vs[1..]), ks[0], vs[0]);
      var rest := KeyedValues(ks[1..], vs[1..]);
      if ks[0].Some? {
        assert KeyedValues(ks, vs) == [vs[0]] + rest;
        SumPresentAppend([vs[0]], rest);
      } else {
        assert KeyedValues(ks, vs) == rest;
      }
    }
  }

  /**
   * Summing the differences of two columns per key is subtracting their
   * per-key sums, provided every record of the group has both values: the
   * pooled survivors of an operator are its pooled aboard minus its pooled
   * fatalities.
   */
  lemma {:induction false} GroupSumDifference<K(!new)>(
    ks: seq<Option<K>>, as_: seq<Option<int>>, fs: seq<Option<int>>, ds: seq<Option<int>>, k: K)
    requires |ks| == |as_| == |fs| == |ds| && Some(k) in ks
    requires forall i :: 0 <= i < |ks| && ks[i] == Some(k) ==>
      as_[i].Some? && fs[i].Some? && ds[i] == Some(as_[i].value - fs[i].value)
    ensures GroupSum(ks, ds)[k] == GroupSum(ks, as_)[k] - GroupSum(ks, fs)[k]
  {
    GroupSumValue(ks, ds, k);
    GroupSumValue(ks, as_, k);
    GroupSumValue(ks, fs, k);
    ValuesOfDifference(ks, as_, fs, ds, k);
  }

  lemma {:induction false} ValuesOfDifference<K>(
    ks: seq<Option<K>>, as_: seq<Option<int>>, fs: seq<Option<int>>, ds: seq<Option<int>>, k: K)
    requires |ks| == |as_| == |fs| == |ds|
    requires forall i :: 0 <= i < |ks| && ks[i] == Some(k) ==>
      as_[i].Some? && fs[i].Some? && ds[i] == Some(as_[i].value - fs[i].value)
    ensures SumPresent(ValuesOf(ks, ds, k)) == SumPresent(ValuesOf(ks, as_, k)) - SumPresent(ValuesOf(ks, fs, k))
    decreases |ks|
  {
    if ks != [] {
      forall i | 0 <= i < |ks| - 1 && ks[1..][i] == Some(k)
        ensures as_[1..][i].Some? && fs[1..][i].Some? && ds[1..][i] == Some(as_[1..][i].value - fs[1..][i].value)
      {
        assert ks[i + 1] == ks[1..][i];
      }
      ValuesOfDifference(ks[1..], as_[1..], fs[1..], ds[1..], k);
      var d, a, f := ValuesOf(ks[1..], ds[1..], k), ValuesOf(ks[1..], as_[1..], k), ValuesOf(ks[1..], fs[1..], k);
      if ks[0] == Some(k) {
        SumPresentAppend([ds[0]], d);
        SumPresentAppend([as_[0]], a);
        SumPresentAppend([fs[0]], f);
      } else {
        assert ValuesOf(ks, ds, k) == d;
        assert ValuesOf(ks, as_, k) == a;
        assert ValuesOf(ks, fs, k) == f;
      }
    }
  }
}
