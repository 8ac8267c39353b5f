/**
 What recording, querying and loading promise about the ledger, stated
 against the cell contents rather than against the way each operation is built.
 */
module LedgerProperties {
  import opened Wrappers
  import opened Columns
  import opened Ledger

  /** The amount already stored for column `c` on `date`; a missing row, column or value counts as 0. */
  function PriorAmount(t: Table, date: Date, c: string): real {
    if date in t.rows && c in t.rows[date] && t.rows[date][c].Some? then t.rows[date][c].value else 0.0
  }

  /**
   Recording on a date already in the table adds each amount to the area's
   stored cell (a missing value or a just-created column counts as 0) and
   leaves every other cell of that row as it was.
   */
  lemma RecordOnExistingDate(t: Table, date: Date, area: string, dry: real, wet: real)
    requires WellFormed(t)
    requires date in t.rows
    ensures var r, dc, wc := Record(t, date, area, dry, wet), ColumnName(area, Dry), ColumnName(area, Wet);
      && date in r.rows && dc in r.rows[date] && wc in r.rows[date]
      && r.rows[date][dc] == Some(PriorAmount(t, date, dc) + dry)
      && r.rows[date][wc] == Some(PriorAmount(t, date, wc) + wet)
      && forall c | c in t.rows[date] && c != dc && c != wc :: c in r.rows[date] && r.rows[date][c] == t.rows[date][c]
  {
    var dc, wc := ColumnName(area, Dry), ColumnName(area, Wet);
    DryWetColumnsDiffer(area);
    var t' := EnsureAreaColumns(t, area);
    var r := Record(t, date, area, dry, wet);
    var row, before := t'.rows[date], t.rows[date];
    assert r.rows[date] == AddToRow(row, dc, wc, dry, wet);
    assert row[dc] == (if dc in before then before[dc] else Some(0.0));
    assert row[wc] == (if wc in before then before[wc] else Some(0.0));
    assert forall c | c in before :: row[c] == before[c];
  }

  /**
   Recording on a date not yet in the table adds exactly one row: the area's
   dry and wet columns hold the amounts and every other column holds 0.0.
   */
  lemma RecordOnNewDate(t: Table, date: Date, area: string, dry: real, wet: real)
    requires WellFormed(t)
    requires date !in t.rows
    ensures var r, dc, wc := Record(t, date, area, dry, wet), ColumnName(area, Dry), ColumnName(area, Wet);
      && |r.rows| == |t.rows| + 1
      && date in r.rows
      && forall c | c in r.columns ::
           c in r.rows[date]
           && r.rows[date][c] == (if c == dc then Some(dry) else if c == wc then Some(wet) else Some(0.0))
  {
  }

  /** Either way, the area's cells on the recorded date hold the prior amount plus the new one. */
  lemma RecordSetsAreaCells(t: Table, date: Date, area: string, dry: real, wet: real)
    requires WellFormed(t)
    ensures var r, dc, wc := Record(t, date, area, dry, wet), ColumnName(area, Dry), ColumnName(area, Wet);
      && date in r.rows && dc in r.rows[date] && wc in r.rows[date]
      && r.rows[date][dc] == Some(PriorAmount(t, date, dc) + dry)
      && r.rows[date][wc] == Some(PriorAmount(t, date, wc) + wet)
  {
    if date in t.rows {
      RecordOnExistingDate(t, date, area, dry, wet);
    } else {
      var r, dc, wc := Record(t, date, area, dry, wet), ColumnName(area, Dry), ColumnName(area, Wet);
      RecordOnNewDate(t, date, area, dry, wet);
      DryWetColumnsDiffer(area);
      assert dc in r.columns && wc in r.columns;
    }
  }

  /**
   Recording changes no other date: every cell of another existing row keeps
   its value, and a column the record had to create reads 0.0 there.
   */
  lemma RecordLeavesOtherDates(t: Table, date: Date, area: string, dry: real, wet: real)
    requires WellFormed(t)
    ensures var r, dc, wc := Record(t, date, area, dry, wet), ColumnName(area, Dry), ColumnName(area, Wet);
      forall d | d in t.rows && d != date ::
        && d in r.rows
        && r.rows[d].Keys == t.rows[d].Keys + {dc, wc}
        && (forall c | c in t.rows[d] :: r.rows[d][c] == t.rows[d][c])
        && (forall c | c in {dc, wc} && c !in t.columns :: r.rows[d][c] == Some(0.0))
  {
  }

  /** Adding two amounts one after the other is adding their sum. */
  lemma AccumulateTwice(prior: Cell, x: real, y: real)
    ensures Accumulate(Accumulate(prior, x), y) == Accumulate(prior, x + y)
  {
  }

  /** Making sure of columns that are already there changes nothing. */
  lemma EnsurePresentColumns(t: Table, area: string)
    requires WellFormed(t)
    requires ColumnName(area, Dry) in t.columns && ColumnName(area, Wet) in t.columns
    ensures EnsureAreaColumns(t, area) == t
  {
  }

  /** The recorded row with a second pair of amounts added is the row recorded with the sums. */
  lemma RecordedRowTwice(t: Table, date: Date, dc: string, wc: string, x1: real, y1: real, x2: real, y2: real)
    requires WellFormed(t)
    requires dc in t.columns && wc in t.columns && dc != wc
    ensures var row1 := RecordedRow(t, date, dc, wc, x1, y1);
      dc in row1 && wc in row1
      && AddToRow(row1, dc, wc, x2, y2) == RecordedRow(t, date, dc, wc, x1 + x2, y1 + y2)
  {
  }

  /**
   Two records for the same date and area accumulate: together they leave the
   table exactly as one record of the summed amounts would.
   */
  lemma RecordTwiceAccumulates(t: Table, date: Date, area: string, dry1: real, wet1: real, dry2: real, wet2: real)
    requires WellFormed(t)
    ensures Record(Record(t, date, area, dry1, wet1), date, area, dry2, wet2)
         == Record(t, date, area, dry1 + dry2, wet1 + wet2)
  {
    var dc, wc := ColumnName(area, Dry), ColumnName(area, Wet);
    DryWetColumnsDiffer(area);
    var t' := EnsureAreaColumns(t, area);
    var row1 := RecordedRow(t', date, dc, wc, dry1, wet1);
    var r1 := Record(t, date, area, dry1, wet1);
    assert r1 == Table(t'.columns, t'.rows[date := row1]);
    EnsurePresentColumns(r1, area);
    RecordedRowTwice(t', date, dc, wc, dry1, wet1, dry2, wet2);
    assert RecordedRow(r1, date, dc, wc, dry2, wet2) == AddToRow(row1, dc, wc, dry2, wet2);
  }

  /** Zero-filled new columns keep a table non-negative. */
  lemma EnsureAreaColumnsNonNegative(t: Table, area: string)
    requires WellFormed(t) && NonNegative(t)
    ensures NonNegative(EnsureAreaColumns(t, area))
  {
  }

  /** The row a record leaves holds only non-negative amounts. */
  lemma RecordedRowNonNegative(t: Table, date: Date, dc: string, wc: string, dry: real, wet: real)
    requires WellFormed(t) && NonNegative(t)
    requires dc in t.columns && wc in t.columns
    requires dry >= 0.0 && wet >= 0.0
    ensures var row := RecordedRow(t, date, dc, wc, dry, wet);
      forall c | c in row && row[c].Some? :: row[c].value >= 0.0
  {
  }

  /** With non-negative inputs, a table of non-negative cells stays non-negative. */
  lemma RecordPreservesNonNegative(t: Table, date: Date, area: string, dry: real, wet: real)
    requires WellFormed(t) && NonNegative(t)
    requires dry >= 0.0 && wet >= 0.0
    ensures NonNegative(Record(t, date, area, dry, wet))
  {
    var dc, wc, t' := ColumnName(area, Dry), ColumnName(area, Wet), EnsureAreaColumns(t, area);
    EnsureAreaColumnsNonNegative(t, area);
    RecordedRowNonNegative(t', date, dc, wc, dry, wet);
  }

  /**
   Querying right after a record reports the accumulated amounts of that
   area on that date, and their sum as the total.
   */
  lemma QueryAfterRecord(t: Table, date: Date, area: string, dry: real, wet: real)
    requires WellFormed(t)
    ensures var pd, pw := PriorAmount(t, date, ColumnName(area, Dry)), PriorAmount(t, date, ColumnName(area, Wet));
      Query(Record(t, date, area, dry, wet), date, area)
        == Found(Some(pd + dry), Some(pw + wet), Some(pd + dry + (pw + wet)))
  {
    RecordSetsAreaCells(t, date, area, dry, wet);
  }

  /** On a date the ledger did not have, the query returns exactly the recorded amounts. */
  lemma QueryAfterRecordOnNewDate(t: Table, date: Date, area: string, dry: real, wet: real)
    requires WellFormed(t)
    requires date !in t.rows
    ensures Query(Record(t, date, area, dry, wet), date, area) == Found(Some(dry), Some(wet), Some(dry + wet))
  {
    QueryAfterRecord(t, date, area, dry, wet);
  }

  /** Recording 2.5 dry and 1.5 wet tons for Adyar on a fresh date reads back with a 4.0 ton total. */
  lemma AdyarScenario(t: Table, date: Date)
    requires WellFormed(t)
    requires date !in t.rows
    ensures Query(Record(t, date, "Adyar", 2.5, 1.5), date, "Adyar") == Found(Some(2.5), Some(1.5), Some(4.0))
  {
    QueryAfterRecordOnNewDate(t, date, "Adyar", 2.5, 1.5);
  }
}
