/**
 * The analyses the script runs over the prepared table (lines 42-102): the
 * crash count and fatality sum per year, the crash count and fatality sum
 * per operator with their top-ten rankings, the per-operator sums of
 * aboard, fatalities and survivors ranked by aboard with the pooled survival
 * rate, and the overall totals.
 */
module Analysis {
  import opened Wrappers
  import opened Grouping
  import opened Ranking
  import opened Records

  // ---------------------------------------------------------------------
  // Columns of the prepared table
  // ---------------------------------------------------------------------

  function Years(rows: seq<Record>): (c: seq<Option<int>>)
    ensures |c| == |rows| && forall i :: 0 <= i < |rows| ==> c[i] == rows[i].year
  {
    seq(|rows|, i requires 0 <= i < |rows| => rows[i].year)
  }

  function Operators(rows: seq<Record>): (c: seq<Option<string>>)
    ensures |c| == |rows| && forall i :: 0 <= i < |rows| ==> c[i] == rows[i].operator
  {
    seq(|rows|, i requires 0 <= i < |rows| => rows[i].operator)
  }

  function AboardValues(rows: seq<Record>): (c: seq<Option<int>>)
    ensures |c| == |rows| && forall i :: 0 <= i < |rows| ==> c[i] == rows[i].aboard
  {
    seq(|rows|, i requires 0 <= i < |rows| => rows[i].aboard)
  }

  function FatalityValues(rows: seq<Record>): (c: seq<Option<int>>)
    ensures |c| == |rows| && forall i :: 0 <= i < |rows| ==> c[i] == rows[i].fatalities
  {
    seq(|rows|, i requires 0 <= i < |rows| => rows[i].fatalities)
  }

  function SurvivorValues(rows: seq<Record>): (c: seq<Option<int>>)
    ensures |c| == |rows| && forall i :: 0 <= i < |rows| ==> c[i] == rows[i].survivors
  {
    seq(|rows|, i requires 0 <= i < |rows| => rows[i].survivors)
  }

  /** The number of records whose date could not be parsed. */
  function Undated(rows: seq<Record>): nat {
    multiset(Years(rows))[None]
  }

  // ---------------------------------------------------------------------
  // Per year
  // ---------------------------------------------------------------------

  /** `df.groupby("Year").size()`: each year that occurs, with its number of records. */
  function YearlyCrashes(rows: seq<Record>): (m: map<int, nat>)
    ensures forall y :: y in m <==> Some(y) in Years(rows)
    ensures forall y :: y in m ==> m[y] == multiset(Years(rows))[Some(y)]
  {
    GroupCount(Years(rows))
  }

  /** The yearly counts add up to the number of dated records: all crashes but the undated ones. */
  lemma YearlyCrashesTotal(rows: seq<Record>)
    ensures MapTotal(YearlyCrashes(rows)) + Undated(rows) == TotalCrashes(rows)
  {
    GroupCountTotal(Years(rows));
  }

  /** Two records of 1985 and one of 1986 give {1985: 2, 1986: 1}. */
  lemma YearlyCrashesExample(a: Record, b: Record, c: Record)
    requires a.year == Some(1985) && b.year == Some(1985) && c.year == Some(1986)
    ensures var m := YearlyCrashes([a, b, c]);
      (forall y :: y in m <==> y == 1985 || y == 1986) && m[1985] == 2 && m[1986] == 1
  {
    var ys := Years([a, b, c]);
    assert ys == [Some(1985), Some(1985), Some(1986)];
    assert multiset(ys)[Some(1985)] == 2 && multiset(ys)[Some(1986)] == 1;
    assert forall y :: Some(y) in ys <==> y == 1985 || y == 1986;
  }

  /** `df.groupby("Year")["Fatalities"].sum()`: each year that occurs, with the sum of its present fatality counts. */
  function YearlyFatalities(rows: seq<Record>): (m: map<int, int>)
    ensures forall y :: y in m <==> Some(y) in Years(rows)
  {
    GroupSum(Years(rows), FatalityValues(rows))
  }

  /** A year's fatalities are the sum of the present counts of exactly that year's records; 0 if none is present. */
  lemma YearlyFatalitiesValue(rows: seq<Record>, y: int)
    requires Some(y) in Years(rows)
    ensures YearlyFatalities(rows)[y] == SumPresent(ValuesOf(Years(rows), FatalityValues(rows), y))
    ensures (forall i :: 0 <= i < |rows| && rows[i].year == Some(y) ==> rows[i].fatalities.None?) ==>
      YearlyFatalities(rows)[y] == 0
  {
    GroupSumValue(Years(rows), FatalityValues(rows), y);
    if forall i :: 0 <= i < |rows| && rows[i].year == Some(y) ==> rows[i].fatalities.None? {
      GroupSumAllMissing(Years(rows), FatalityValues(rows), y);
    }
  }

  /** The yearly fatality sums add up to the present fatality counts of the dated records. */
  lemma YearlyFatalitiesTotal(rows: seq<Record>)
    ensures MapTotal(YearlyFatalities(rows)) == SumPresent(KeyedValues(Years(rows), FatalityValues(rows)))
  {
    GroupSumTotal(Years(rows), FatalityValues(rows));
  }

  // ---------------------------------------------------------------------
  // Per operator
  // ---------------------------------------------------------------------

  /** `df["Operator"].value_counts()`: each operator that occurs, with its number of records. */
  function OperatorCrashes(rows: seq<Record>): (m: map<string, nat>)
    ensures forall op :: op in m <==> Some(op) in Operators(rows)
    ensures forall op :: op in m ==> m[op] == multiset(Operators(rows))[Some(op)]
  {
    GroupCount(Operators(rows))
  }

  /** `df.groupby("Operator")["Fatalities"].sum()`. */
  function OperatorFatalities(rows: seq<Record>): (m: map<string, int>)
    ensures forall op :: op in m <==> Some(op) in Operators(rows)
  {
    GroupSum(Operators(rows), FatalityValues(rows))
  }

  /**
   * An operator's fatalities are the sum of the present counts of its
   * records, and 0 when none of them is present.
   */
  lemma OperatorFatalitiesValue(rows: seq<Record>, op: string)
    requires Some(op) in Operators(rows)
    ensures OperatorFatalities(rows)[op] == SumPresent(ValuesOf(Operators(rows), FatalityValues(rows), op))
    ensures (forall i :: 0 <= i < |rows| && rows[i].operator == Some(op) ==> rows[i].fatalities.None?) ==>
      OperatorFatalities(rows)[op] == 0
  {
    GroupSumValue(Operators(rows), FatalityValues(rows), op);
    if forall i :: 0 <= i < |rows| && rows[i].operator == Some(op) ==> rows[i].fatalities.None? {
      GroupSumAllMissing(Operators(rows), FatalityValues(rows), op);
    }
  }

  /** The three sums the script keeps per operator. */
  datatype Totals = Totals(aboard: int, fatalities: int, survivors: int)

  /** `df.groupby("Operator").agg({"Aboard": "sum", "Fatalities": "sum", "Survivors": "sum"})`. */
  function OperatorTotals(rows: seq<Record>): (t: map<string, Totals>)
    ensures forall op :: op in t <==> Some(op) in Operators(rows)
  {
    var ops := Operators(rows);
    var a := GroupSum(ops, AboardValues(rows));
    var f := GroupSum(ops, FatalityValues(rows));
    var s := GroupSum(ops, SurvivorValues(rows));
    map op | op in a :: Totals(a[op], f[op], s[op])
  }

  /** Each operator's totals are the sums of the present values of exactly that operator's records. */
  lemma OperatorTotalsValue(rows: seq<Record>, op: string)
    requires Some(op) in Operators(rows)
    ensures var ops, t := Operators(rows), OperatorTotals(rows)[op];
      && t.aboard == SumPresent(ValuesOf(ops, AboardValues(rows), op))
      && t.fatalities == SumPresent(ValuesOf(ops, FatalityValues(rows), op))
      && t.survivors == SumPresent(ValuesOf(ops, SurvivorValues(rows), op))
  {
    var ops := Operators(rows);
    GroupSumValue(ops, AboardValues(rows), op);
    GroupSumValue(ops, FatalityValues(rows), op);
    GroupSumValue(ops, SurvivorValues(rows), op);
  }

  /** A survival rate as a fraction: `Survivors / Aboard`, scaled by 100 when shown. */
  datatype Rate = Rate(numerator: int, denominator: int)

  /**
   * Line 88: an operator's survival rate divides its summed survivors by
   * its summed aboard (pooled, not an average of per-record rates).
   */
  function SurvivalRate(t: Totals): Rate {
    Rate(t.survivors, t.aboard)
  }

  /**
   * When every record of an operator has both its aboard and fatality counts
   * (and so its survivors, since the table was prepared), the pooled rate is
   * (aboard - fatalities) / aboard over the operator's sums.
   */
  lemma PooledSurvivalRate(rows: seq<Record>, op: string)
    requires Some(op) in Operators(rows)
    requires forall i :: 0 <= i < |rows| && rows[i].operator == Some(op) ==>
      rows[i].aboard.Some? && rows[i].fatalities.Some? &&
      rows[i].survivors == Survivors(rows[i].aboard, rows[i].fatalities)
    ensures var t := OperatorTotals(rows)[op];
      SurvivalRate(t) == Rate(t.aboard - t.fatalities, t.aboard)
  {
    GroupSumDifference(Operators(rows), AboardValues(rows), FatalityValues(rows), SurvivorValues(rows), op);
  }

  // ---------------------------------------------------------------------
  // Rankings
  // ---------------------------------------------------------------------

  /** How many entries each ranking keeps (`head(10)`). */
  const TopCount: nat := 10

  /** Line 68: the ten operators with the most crashes, most first. */
  ghost function TopByCrashes(rows: seq<Record>): (r: seq<(string, int)>)
    ensures IsTopRanking(OperatorCrashes(rows), TopCount, r)
  {
    TopK(OperatorCrashes(rows), TopCount)
  }

  /** Line 76: the ten operators with the most fatalities, most first. */
  ghost function TopByFatalities(rows: seq<Record>): (r: seq<(string, int)>)
    ensures IsTopRanking(OperatorFatalities(rows), TopCount, r)
  {
    TopK(OperatorFatalities(rows), TopCount)
  }

  /** The summed aboard count of every operator: the key of the ranking at line 89. */
  function AboardByOperator(t: map<string, Totals>): (m: map<string, int>)
    ensures m.Keys == t.Keys && forall op :: op in m ==> m[op] == t[op].aboard
  {
    map op | op in t :: t[op].aboard
  }

  /** How many entries the closing summary prints of each ranking (`head()`). */
  const PrintedCount: nat := 5

  /**
   * Lines 103-104: the five operators printed from each ranking are the five
   * with the most crashes and the five with the most fatalities.
   */
  lemma PrintedTopFive(rows: seq<Record>)
    ensures var r := TopByCrashes(rows);
      IsTopRanking(OperatorCrashes(rows), PrintedCount, r[..if |r| < PrintedCount then |r| else PrintedCount])
    ensures var r := TopByFatalities(rows);
      IsTopRanking(OperatorFatalities(rows), PrintedCount, r[..if |r| < PrintedCount then |r| else PrintedCount])
  {
    RankingPrefix(OperatorCrashes(rows), TopCount, TopByCrashes(rows), PrintedCount);
    RankingPrefix(OperatorFatalities(rows), TopCount, TopByFatalities(rows), PrintedCount);
  }

  /** A ranking with each operator's three sums attached. */
  function AttachTotals(ranked: seq<(string, int)>, t: map<string, Totals>): (r: seq<(string, Totals)>)
    requires forall i :: 0 <= i < |ranked| ==> ranked[i].0 in t
    ensures |r| == |ranked|
    ensures forall i :: 0 <= i < |r| ==> r[i] == (ranked[i].0, t[ranked[i].0])
  {
    seq(|ranked|, i requires 0 <= i < |ranked| => (ranked[i].0, t[ranked[i].0]))
  }

  /**
   * Line 89 over the per-operator sums: the ten operators with the largest
   * summed aboard count, largest first, each with its three sums (and so
   * its survival rate).
   */
  ghost function RankByAboard(t: map<string, Totals>): (r: seq<(string, Totals)>)
    ensures |r| == (if |t| < TopCount then |t| else TopCount)
    ensures forall i :: 0 <= i < |r| ==> r[i].0 in t && r[i].1 == t[r[i].0]
    ensures forall i, j :: 0 <= i < j < |r| ==> r[i].0 != r[j].0
    ensures forall i, j :: 0 <= i < j < |r| ==> r[i].1.aboard >= r[j].1.aboard
    ensures forall op, i :: op in t && 0 <= i < |r| && (forall j :: 0 <= j < |r| ==> r[j].0 != op) ==>
      t[op].aboard <= r[i].1.aboard
  {
    var ranked := TopK(AboardByOperator(t), TopCount);
    AttachedRanking(t, ranked);
    AttachTotals(ranked, t)
  }

  /** Attaching the sums to a ranking of the aboard counts keeps what makes it a ranking. */
  lemma AttachedRanking(t: map<string, Totals>, ranked: seq<(string, int)>)
    requires IsTopRanking(AboardByOperator(t), TopCount, ranked)
    ensures forall i :: 0 <= i < |ranked| ==> ranked[i].0 in t
    ensures var r := AttachTotals(ranked, t);
      && |r| == (if |t| < TopCount then |t| else TopCount)
      && (forall i :: 0 <= i < |r| ==> r[i].0 in t && r[i].1 == t[r[i].0])
      && (forall i, j :: 0 <= i < j < |r| ==> r[i].0 != r[j].0)
      && (forall i, j :: 0 <= i < j < |r| ==> r[i].1.aboard >= r[j].1.aboard)
      && (forall op, i :: op in t && 0 <= i < |r| && (forall j :: 0 <= j < |r| ==> r[j].0 != op) ==>
            t[op].aboard <= r[i].1.aboard)
  {
    var m := AboardByOperator(t);
    assert |m| == |t| by {
      assert m.Keys == t.Keys;
    }
    var r := AttachTotals(ranked, t);
    forall op, i | op in t && 0 <= i < |r| && (forall j :: 0 <= j < |r| ==> r[j].0 != op)
      ensures t[op].aboard <= r[i].1.aboard
    {
      assert op !in KeysOf(ranked);
    }
  }

  /** Line 89: the aboard ranking of the table's operators. */
  ghost function TopByAboard(rows: seq<Record>): seq<(string, Totals)> {
    RankByAboard(OperatorTotals(rows))
  }

  /** The operators of an aboard ranking with their summed aboard counts. */
  function AboardColumn(r: seq<(string, Totals)>): (c: seq<(string, int)>)
    ensures |c| == |r| && forall i :: 0 <= i < |r| ==> c[i] == (r[i].0, r[i].1.aboard)
  {
    seq(|r|, i requires 0 <= i < |r| => (r[i].0, r[i].1.aboard))
  }

  /** Read by its aboard column, the ranking at line 89 is a top-ten ranking of the aboard sums. */
  lemma RankByAboardIsTop(t: map<string, Totals>)
    ensures IsTopRanking(AboardByOperator(t), TopCount, AboardColumn(RankByAboard(t)))
  {
    var ranked := TopK(AboardByOperator(t), TopCount);
    AboardColumnOfAttached(t, ranked);
  }

  /** Attaching the sums to a ranking of aboard counts and reading back the aboard column gives the ranking. */
  lemma AboardColumnOfAttached(t: map<string, Totals>, ranked: seq<(string, int)>)
    requires EntriesOf(AboardByOperator(t), ranked)
    ensures forall i :: 0 <= i < |ranked| ==> ranked[i].0 in t
    ensures AboardColumn(AttachTotals(ranked, t)) == ranked
  {
    var c := AboardColumn(AttachTotals(ranked, t));
    assert forall i :: 0 <= i < |c| ==> c[i] == ranked[i];
  }

  /**
   * Line 105: the five survival rates printed belong to the first five rows
   * of the aboard ranking, which are the five operators with the largest
   * summed aboard count, largest first, each with its own sums.
   */
  lemma PrintedTopSurvival(rows: seq<Record>)
    ensures var t, r := OperatorTotals(rows), TopByAboard(rows);
      var p := r[..if |r| < PrintedCount then |r| else PrintedCount];
      && IsTopRanking(AboardByOperator(t), PrintedCount, AboardColumn(p))
      && forall i :: 0 <= i < |p| ==> p[i].0 in t && p[i].1 == t[p[i].0]
  {
    var t := OperatorTotals(rows);
    RankByAboardIsTop(t);
    AboardPrefix(AboardByOperator(t), t, RankByAboard(t), PrintedCount);
  }

  /** The first `n` rows of a top-ten aboard ranking with attached sums rank the `n` largest, sums still attached. */
  lemma AboardPrefix(m: map<string, int>, t: map<string, Totals>, r: seq<(string, Totals)>, n: nat)
    requires IsTopRanking(m, TopCount, AboardColumn(r)) && n <= TopCount
    requires forall i :: 0 <= i < |r| ==> r[i].0 in t && r[i].1 == t[r[i].0]
    ensures var p := r[..if |r| < n then |r| else n];
      && IsTopRanking(m, n, AboardColumn(p))
      && forall i :: 0 <= i < |p| ==> p[i].0 in t && p[i].1 == t[p[i].0]
  {
    var p := r[..if |r| < n then |r| else n];
    RankingPrefix(m, TopCount, AboardColumn(r), n);
    assert AboardColumn(p) == AboardColumn(r)[..|p|] by {
      assert forall i :: 0 <= i < |p| ==> AboardColumn(p)[i] == AboardColumn(r)[..|p|][i];
    }
    assert forall i :: 0 <= i < |p| ==> p[i] == r[i];
  }

  // ---------------------------------------------------------------------
  // Totals (lines 100-102)
  // ---------------------------------------------------------------------

  /** `len(df)`. */
  function TotalCrashes(rows: seq<Record>): nat {
    |rows|
  }

  /** `df["Fatalities"].sum()`: missing counts are skipped. */
  function TotalFatalities(rows: seq<Record>): int {
    SumPresent(FatalityValues(rows))
  }

  /** `df["Survivors"].sum()`: missing counts are skipped. */
  function TotalSurvivors(rows: seq<Record>): int {
    SumPresent(SurvivorValues(rows))
  }

  /**
   * When every record has both its counts (and so its survivors), the
   * survivor total is the aboard total less the fatality total.
   */
  lemma TotalSurvivorsIsDifference(rows: seq<Record>)
    requires forall i :: 0 <= i < |rows| ==>
      rows[i].aboard.Some? && rows[i].fatalities.Some? &&
      rows[i].survivors == Survivors(rows[i].aboard, rows[i].fatalities)
    ensures TotalSurvivors(rows) == SumPresent(AboardValues(rows)) - TotalFatalities(rows)
  {
    SumPresentDifference(AboardValues(rows), FatalityValues(rows), SurvivorValues(rows));
  }

  /**
   * Every record carries an operator, so the per-operator fatality sums add
   * up to the overall fatality total.
   */
  lemma OperatorFatalitiesTotal(rows: seq<Record>)
    requires forall i :: 0 <= i < |rows| ==> rows[i].operator.Some?
    ensures MapTotal(OperatorFatalities(rows)) == TotalFatalities(rows)
  {
    GroupSumTotal(Operators(rows), FatalityValues(rows));
    KeyedValuesAllKeyed(Operators(rows), FatalityValues(rows));
  }

  /** An empty table gives empty aggregates and zero totals, without failing. */
  lemma EmptyTable()
    ensures YearlyCrashes([]) == map[] && YearlyFatalities([]) == map[]
    ensures OperatorCrashes([]) == map[] && OperatorFatalities([]) == map[] && OperatorTotals([]) == map[]
    ensures TopByCrashes([]) == [] && TopByFatalities([]) == [] && TopByAboard([]) == []
    ensures TotalCrashes([]) == 0 && TotalFatalities([]) == 0 && TotalSurvivors([]) == 0
  {
    assert Years([]) == [] && Operators([]) == [];
    assert FatalityValues([]) == [] && SurvivorValues([]) == [];
  }
}
