/**
 * The crash table as the script prepares it (lines 7-42 of the script):
 * the leading descriptive column is dropped, `Fatalities` and `Aboard` are
 * cleaned and converted, and `Survivors` and `Year` are derived per record.
 */
module Records {
  import opened Wrappers
  import opened FieldCleaning

  // ---------------------------------------------------------------------
  // The leading column
  // ---------------------------------------------------------------------

  /** ASCII lower-casing of one character. */
  function LowerAscii(c: char): char {
    if 'A' <= c <= 'Z' then (c as int + 32) as char else c
  }

  /** The prefix that marks the descriptive first column. */
  const AccidentMarker: string := "accident"

  /** `header.lower().startswith("accident")`. */
  predicate IsAccidentHeader(header: string) {
    |header| >= |AccidentMarker| &&
    forall k :: 0 <= k < |AccidentMarker| ==> LowerAscii(header[k]) == AccidentMarker[k]
  }

  /**
   * The column names after line 10-11: the first column is dropped exactly
   * when its lower-cased name starts with "accident"; the others keep their
   * order. (The loader always yields at least one column.)
   */
  function KeptColumns(columns: seq<string>): (r: seq<string>)
    requires |columns| > 0
    ensures IsAccidentHeader(columns[0]) ==> r == columns[1..]
    ensures !IsAccidentHeader(columns[0]) ==> r == columns
  {
    if IsAccidentHeader(columns[0]) then columns[1..] else columns
  }

  /** The data set's own header is dropped, whatever its case; "Date" is kept. */
  lemma AccidentDetailsHeaderDropped(rest: seq<string>)
    ensures KeptColumns(["ACCIDENT DETAILS"] + rest) == rest
    ensures KeptColumns(["Date"] + rest) == ["Date"] + rest
  {
    assert IsAccidentHeader("ACCIDENT DETAILS");
    assert !IsAccidentHeader("Date");
    assert (["ACCIDENT DETAILS"] + rest)[1..] == rest;
  }

  // ---------------------------------------------------------------------
  // Records before and after cleaning
  // ---------------------------------------------------------------------

  /** A calendar date as `pd.to_datetime` yields it. */
  datatype Date = Date(year: int, month: int, day: int)

  /**
   * One row as loaded, with the `Date` column already converted
   * (`errors="coerce"`: an unparsable date is missing).
   */
  datatype RawRow = RawRow(date: Option<Date>, operator: Option<string>, aboard: Cell, fatalities: Cell)

  /** One row after cleaning and derivation. */
  datatype Record = Record(
    year: Option<int>,
    operator: Option<string>,
    aboard: Option<int>,
    fatalities: Option<int>,
    survivors: Option<int>)

  /** The column whose conversion raised. */
  datatype Column = FatalitiesColumn | AboardColumn

  /** `astype(float)` raised on a column, for the cleaned text shown. */
  datatype CleanError = NotNumeric(column: Column, text: string)

  /** `Aboard - Fatalities` for one record: missing when either side is missing. */
  function Survivors(aboard: Option<int>, fatalities: Option<int>): (r: Option<int>)
    ensures r.Some? <==> aboard.Some? && fatalities.Some?
    ensures r.Some? ==> r.value + fatalities.value == aboard.value
  {
    if aboard.Some? && fatalities.Some? then Some(aboard.value - fatalities.value) else None
  }

  /** `df["Date"].dt.year`: the year of a present date, missing otherwise. */
  function YearOf(date: Option<Date>): (y: Option<int>)
    ensures y.Some? <==> date.Some?
    ensures y.Some? ==> y.value == date.value.year
  {
    match date
    case None => None
    case Some(d) => Some(d.year)
  }

  function FatalitiesCells(raw: seq<RawRow>): (cells: seq<Cell>)
    ensures |cells| == |raw| && forall i :: 0 <= i < |raw| ==> cells[i] == raw[i].fatalities
  {
    seq(|raw|, i requires 0 <= i < |raw| => raw[i].fatalities)
  }

  function AboardCells(raw: seq<RawRow>): (cells: seq<Cell>)
    ensures |cells| == |raw| && forall i :: 0 <= i < |raw| ==> cells[i] == raw[i].aboard
  {
    seq(|raw|, i requires 0 <= i < |raw| => raw[i].aboard)
  }

  /** The prepared records from the loaded rows and their two converted columns. */
  function Assemble(raw: seq<RawRow>, fatalities: seq<Option<int>>, aboard: seq<Option<int>>): (rows: seq<Record>)
    requires |fatalities| == |raw| && |aboard| == |raw|
    ensures |rows| == |raw|
    ensures forall i :: 0 <= i < |raw| ==>
      rows[i] == Record(YearOf(raw[i].date), raw[i].operator, aboard[i], fatalities[i], Survivors(aboard[i], fatalities[i]))
  {
    seq(|raw|, i requires 0 <= i < |raw| =>
      Record(YearOf(raw[i].date), raw[i].operator, aboard[i], fatalities[i], Survivors(aboard[i], fatalities[i])))
  }

  /**
   * Lines 18-42 run over the loaded rows, stage by stage: `Fatalities` is
   * cleaned and converted first, then `Aboard` (either conversion raises on
   * the first cell that is not numeric, and the run stops), then `Survivors`
   * and `Year` are added to every record.
   */
  method PrepareTable(raw: seq<RawRow>) returns (r: Result<seq<Record>, CleanError>)
    ensures var fs, as_ := CleanColumn(FatalitiesCells(raw)), CleanColumn(AboardCells(raw));
      && (r.Success? <==> fs.Success? && as_.Success?)
      && (fs.Failure? ==> r == Failure(NotNumeric(FatalitiesColumn, fs.error)))
      && (fs.Success? && as_.Failure? ==> r == Failure(NotNumeric(AboardColumn, as_.error)))
    ensures r.Success? ==> |r.value| == |raw|
    ensures r.Success? ==> forall i :: 0 <= i < |raw| ==>
      && r.value[i].year == YearOf(raw[i].date)
      && r.value[i].operator == raw[i].operator
      && r.value[i].fatalities == CleanColumn(FatalitiesCells(raw)).value[i]
      && r.value[i].aboard == CleanColumn(AboardCells(raw)).value[i]
      && r.value[i].survivors == Survivors(r.value[i].aboard, r.value[i].fatalities)
  {
    // line 30
    var fatalities := CleanColumn(FatalitiesCells(raw));
    if fatalities.Failure? {
      return Failure(NotNumeric(FatalitiesColumn, fatalities.error));
    }
    // line 31
    var aboard := CleanColumn(AboardCells(raw));
    if aboard.Failure? {
      return Failure(NotNumeric(AboardColumn, aboard.error));
    }
    // lines 34 and 42
    return Success(Assemble(raw, fatalities.value, aboard.value));
  }
}
