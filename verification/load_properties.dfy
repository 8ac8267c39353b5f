/**
 What loading promises: the shape of the table built for a missing file, what
 the all-empty-row filter keeps, and that a recorded row survives a save and reload.
 */
module LoadProperties {
  import opened Wrappers
  import opened Columns
  import opened Ledger

  /** `c` is the dry or wet column of one of `areas`. */
  predicate IsAreaColumn(areas: seq<string>, c: string) {
    exists i, k | 0 <= i < |areas| :: c == ColumnName(areas[i], k)
  }

  /** Dropping empty rows a second time changes nothing. */
  lemma DropEmptyRowsIdempotent(t: Table)
    ensures DropEmptyRows(DropEmptyRows(t)) == DropEmptyRows(t)
  {
  }

  /** Dropping rows keeps a table well formed. */
  lemma DropEmptyRowsWellFormed(t: Table)
    requires WellFormed(t)
    ensures WellFormed(DropEmptyRows(t))
  {
  }

  /**
   Loading with the file missing gives exactly the 2·|areas| columns
   areas × {Dry, Wet} and no rows, since every skeleton cell is empty; for
   distinct areas the result is a well-formed table.
   */
  lemma LoadMissingFile(areas: seq<string>, days: set<Date>)
    ensures var t := Load(None, areas, days);
      && |t.columns| == 2 * |areas|
      && (forall c :: c in t.columns <==> IsAreaColumn(areas, c))
      && |t.rows| == 0
      && (Distinct(areas) ==> WellFormed(t))
  {
    var t := Load(None, areas, days);
    var n := |areas|;
    forall c | c in t.columns
      ensures IsAreaColumn(areas, c)
    {
      var j :| 0 <= j < |t.columns| && t.columns[j] == c;
      if j < n {
        assert c == ColumnName(areas[j], Dry);
      } else {
        assert c == ColumnName(areas[j - n], Wet);
      }
    }
    forall c | IsAreaColumn(areas, c)
      ensures c in t.columns
    {
      var i, k :| 0 <= i < n && c == ColumnName(areas[i], k);
      if k == Dry {
        assert t.columns[i] == c;
      } else {
        assert t.columns[n + i] == c;
      }
    }
    if Distinct(areas) {
      SkeletonColumnsDistinct(areas);
    }
  }

  /**
   For the listed Chennai areas, the missing-file table has 40 distinct columns,
   and the query page's area selector lists exactly those areas, in order.
   */
  lemma LoadMissingFileListedAreas(days: set<Date>)
    ensures var t := Load(None, AREAS, days);
      && |t.columns| == 40
      && WellFormed(t)
      && AreaChoices(t.columns) == AREAS
  {
    ListedAreasWellChosen();
    LoadMissingFile(AREAS, days);
    AreaChoicesOfSkeleton(AREAS);
  }

  /** A stored table in which every row has some data loads back unchanged. */
  lemma LoadStoredTable(t: Table, areas: seq<string>, days: set<Date>)
    requires forall d | d in t.rows :: HasData(t.rows[d])
    ensures Load(Some(t), areas, days) == t
  {
    var loaded := DropEmptyRows(t);
    forall d | d in t.rows
      ensures d in loaded.rows
    {
      assert HasData(t.rows[d]);
    }
    assert loaded.rows.Keys == t.rows.Keys;
    assert Load(Some(t), areas, days) == loaded;
  }

  /**
   Saving a table right after a record and loading it again keeps the
   recorded date, and the query on the reloaded table answers as on the saved one.
   */
  lemma ReloadAfterRecord(t: Table, date: Date, area: string, dry: real, wet: real, areas: seq<string>, days: set<Date>)
    requires WellFormed(t)
    ensures var r := Record(t, date, area, dry, wet);
      && date in Load(Some(r), areas, days).rows
      && Query(Load(Some(r), areas, days), date, area) == Query(r, date, area)
  {
  }

}
