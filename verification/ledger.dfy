/**
 The waste ledger: a table with one row per date and one column per
 (area, kind) pair, holding tonnage. It is loaded from storage (or built as
 an empty skeleton when the file is missing), updated by recording an area's
 dry and wet amounts for a date, and queried for one area on one date.
 */
module Ledger {
  import opened Wrappers
  import opened Columns

  /** A calendar day. Only equality of days matters to the ledger. */
  type Date = int

  /** A table cell: `None` is a missing value (NaN), `Some(t)` is `t` tons. */
  type Cell = Option<real>

  /** One row of the table, from column name to cell. */
  type Row = map<string, Cell>

  /** The ledger table: ordered column names and the row stored for each date. */
  datatype Table = Table(columns: seq<string>, rows: map<Date, Row>)

  /** A proper data frame: no repeated column, and every row has a cell in every column and nowhere else. */
  predicate WellFormed(t: Table) {
    && Distinct(t.columns)
    && (forall d, c | d in t.rows && c in t.rows[d] :: c in t.columns)
    && (forall d, c | d in t.rows && c in t.columns :: c in t.rows[d])
  }

  /** Every present cell holds a non-negative tonnage. */
  predicate NonNegative(t: Table) {
    forall d, c | d in t.rows && c in t.rows[d] && t.rows[d][c].Some? :: t.rows[d][c].value >= 0.0
  }

  // ---------------------------------------------------------------- loading

  /** A row with at least one present cell. */
  predicate HasData(row: Row) {
    exists c | c in row :: row[c].Some?
  }

  /** A row with every cell missing. */
  function EmptyRow(cols: seq<string>): (row: Row)
    ensures row.Keys == set c | c in cols
    ensures !HasData(row)
  {
    map c | c in cols :: None
  }

  /** Dropping the all-empty rows: keeps, unchanged, exactly the rows with a present cell. */
  function DropEmptyRows(t: Table): (r: Table)
    ensures r.columns == t.columns
    ensures forall d :: d in r.rows <==> d in t.rows && HasData(t.rows[d])
    ensures forall d | d in r.rows :: r.rows[d] == t.rows[d]
  {
    Table(t.columns, map d | d in t.rows && HasData(t.rows[d]) :: t.rows[d])
  }

  /** The table used when no file exists: the full area column set and an empty row per day. */
  function Skeleton(areas: seq<string>, days: set<Date>): Table {
    var cols := SkeletonColumns(areas);
    Table(cols, map d | d in days :: EmptyRow(cols))
  }

  /**
   Loading the ledger: the stored table, or the skeleton when the file is
   missing (`stored == None`), with every all-empty row dropped. `days` is the
   date range the skeleton is indexed by.
   */
  function Load(stored: Option<Table>, areas: seq<string>, days: set<Date>): (t: Table)
    ensures stored.None? ==> t.columns == SkeletonColumns(areas) && t.rows == map[]
    ensures stored.Some? ==> t.columns == stored.value.columns
    ensures stored.Some? ==> forall d :: d in t.rows <==> d in stored.value.rows && HasData(stored.value.rows[d])
    ensures stored.Some? ==> forall d | d in t.rows :: t.rows[d] == stored.value.rows[d]
  {
    var source := if stored.None? then Skeleton(areas, days) else stored.value;
    assert stored.None? ==> forall d | d in source.rows :: source.rows[d] == EmptyRow(source.columns);
    DropEmptyRows(source)
  }

  // -------------------------------------------------------------- recording

  /** Adding a column if it is missing, filled with 0.0 in every existing row. */
  function AddColumn(t: Table, c: string): (r: Table)
    requires WellFormed(t)
    ensures WellFormed(r)
    ensures t.columns <= r.columns
    ensures forall x :: x in r.columns <==> x in t.columns || x == c
    ensures r.rows.Keys == t.rows.Keys
    ensures forall d, c' | d in t.rows && c' in t.rows[d] :: c' in r.rows[d] && r.rows[d][c'] == t.rows[d][c']
    ensures forall d | d in t.rows && c !in t.columns :: c in r.rows[d] && r.rows[d][c] == Some(0.0)
  {
    if c in t.columns then t
    else Table(t.columns + [c], map d | d in t.rows :: t.rows[d][c := Some(0.0)])
  }

  /** Adding an amount to a cell; a missing prior value counts as nothing. */
  function Accumulate(prior: Cell, amount: real): (r: Cell)
    ensures r.Some?
    ensures r.value == (if prior.Some? then prior.value else 0.0) + amount
  {
    if prior.Some? then Some(prior.value + amount) else Some(amount)
  }

  /** The row inserted for a new date: the two amounts in their columns, 0.0 elsewhere. */
  function NewRow(cols: seq<string>, dryCol: string, wetCol: string, dry: real, wet: real): Row {
    map c | c in cols :: if c == dryCol then Some(dry) else if c == wetCol then Some(wet) else Some(0.0)
  }

  /** The area's two columns, each added if missing. */
  function EnsureAreaColumns(t: Table, area: string): (r: Table)
    requires WellFormed(t)
    ensures WellFormed(r)
    ensures t.columns <= r.columns
    ensures forall c :: c in r.columns <==> c in t.columns || c == ColumnName(area, Dry) || c == ColumnName(area, Wet)
    ensures r.rows.Keys == t.rows.Keys
    ensures forall d, c | d in t.rows && c in t.rows[d] :: c in r.rows[d] && r.rows[d][c] == t.rows[d][c]
    ensures forall d | d in t.rows && ColumnName(area, Dry) !in t.columns :: r.rows[d][ColumnName(area, Dry)] == Some(0.0)
    ensures forall d | d in t.rows && ColumnName(area, Wet) !in t.columns :: r.rows[d][ColumnName(area, Wet)] == Some(0.0)
  {
    DryWetColumnsDiffer(area);
    AddColumn(AddColumn(t, ColumnName(area, Dry)), ColumnName(area, Wet))
  }

  /** An existing row with both amounts accumulated into their columns. */
  function AddToRow(row: Row, dryCol: string, wetCol: string, dry: real, wet: real): (r: Row)
    requires dryCol in row && wetCol in row
    ensures r.Keys == row.Keys
    ensures dryCol != wetCol ==> r[dryCol] == Accumulate(row[dryCol], dry)
    ensures r[wetCol] == Accumulate(row[wetCol], wet)
    ensures forall c | c in row && c != dryCol && c != wetCol :: r[c] == row[c]
  {
    row[dryCol := Accumulate(row[dryCol], dry)][wetCol := Accumulate(row[wetCol], wet)]
  }

  /** The row a record leaves on `date`: the existing row with the amounts added, or a new row. */
  function RecordedRow(t: Table, date: Date, dryCol: string, wetCol: string, dry: real, wet: real): Row
    requires WellFormed(t)
    requires dryCol in t.columns && wetCol in t.columns
  {
    if date in t.rows then AddToRow(t.rows[date], dryCol, wetCol, dry, wet)
    else NewRow(t.columns, dryCol, wetCol, dry, wet)
  }

  /**
   Recording `dry` and `wet` tons for `area` on `date`: make sure the area's two
   columns exist, then add to the date's row if there is one, or append a new row.
   */
  function Record(t: Table, date: Date, area: string, dry: real, wet: real): (r: Table)
    requires WellFormed(t)
    ensures WellFormed(r)
    ensures t.columns <= r.columns
    ensures forall c :: c in r.columns <==> c in t.columns || c == ColumnName(area, Dry) || c == ColumnName(area, Wet)
    ensures r.rows.Keys == t.rows.Keys + {date}
  {
    var t' := EnsureAreaColumns(t, area);
    Table(t'.columns, t'.rows[date := RecordedRow(t', date, ColumnName(area, Dry), ColumnName(area, Wet), dry, wet)])
  }

  // --------------------------------------------------------------- querying

  /** What the query page reports. `MissingColumn` is the lookup error for an unknown column. */
  datatype Answer =
    | NoData
    | Found(dry: Cell, wet: Cell, total: Cell)
    | MissingColumn(column: string)

  /** The sum of two cells; a missing operand makes the sum missing, as NaN does. */
  function Sum(x: Cell, y: Cell): (r: Cell)
    ensures r.Some? <==> x.Some? && y.Some?
    ensures r.Some? ==> r.value == x.value + y.value
  {
    if x.Some? && y.Some? then Some(x.value + y.value) else None
  }

  /** Looking up one area's dry and wet amounts on one date, and their total. */
  function Query(t: Table, date: Date, area: string): (q: Answer)
    ensures q.NoData? <==> date !in t.rows
    ensures q.Found? ==> q.total == Sum(q.dry, q.wet)
    ensures q.Found? ==>
      && date in t.rows
      && ColumnName(area, Dry) in t.rows[date] && q.dry == t.rows[date][ColumnName(area, Dry)]
      && ColumnName(area, Wet) in t.rows[date] && q.wet == t.rows[date][ColumnName(area, Wet)]
    ensures (&& WellFormed(t) && date in t.rows
             && ColumnName(area, Dry) in t.columns && ColumnName(area, Wet) in t.columns) ==> q.Found?
  {
    var dryCol, wetCol := ColumnName(area, Dry), ColumnName(area, Wet);
    if date !in t.rows then NoData
    else
      var row := t.rows[date];
      if dryCol !in row then MissingColumn(dryCol)
      else if wetCol !in row then MissingColumn(wetCol)
      else Found(row[dryCol], row[wetCol], Sum(row[dryCol], row[wetCol]))
  }
}
