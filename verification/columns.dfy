/**
 Column naming of the waste ledger. Every area owns two columns,
 `"<Area> Dry Waste"` and `"<Area> Wet Waste"`; the query page finds the dry
 columns by substring and turns them back into area names by deleting the
 `" Dry Waste"` suffix.
 */
module Columns {
  import opened Text

  /** The two waste categories tracked per area and date. */
  datatype Kind = Dry | Wet

  const DRY_SUFFIX: string := " Dry Waste"
  const WET_SUFFIX: string := " Wet Waste"

  /** The substrings the dry and wet column filters look for. */
  const DRY_MARK: string := "Dry Waste"
  const WET_MARK: string := "Wet Waste"

  /** The fixed list of Chennai areas the ledger is laid out for. */
  const AREAS: seq<string> := [
    "Adyar", "Anna Nagar", "T. Nagar", "Kodambakkam", "Mylapore", "Royapettah", "Velachery",
    "Nungambakkam", "Alwarpet", "Besant Nagar", "Saidapet", "Thiruvanmiyur", "Perambur", "Egmore",
    "Guindy", "Pallavaram", "Chromepet", "Tambaram", "Porur", "Madipakkam"]

  /** The substring that identifies a column of the given kind. */
  function Mark(kind: Kind): string {
    if kind == Dry then DRY_MARK else WET_MARK
  }

  function Other(kind: Kind): Kind {
    if kind == Dry then Wet else Dry
  }

  function Suffix(kind: Kind): string {
    if kind == Dry then DRY_SUFFIX else WET_SUFFIX
  }

  /** The name of an area's column of the given kind. */
  function ColumnName(area: string, kind: Kind): string {
    area + Suffix(kind)
  }

  predicate Distinct<T(==)>(s: seq<T>) {
    forall i, j | 0 <= i < j < |s| :: s[i] != s[j]
  }

  /** An area name in which neither filter substring occurs. */
  predicate PlainArea(a: string) {
    !Contains(a, DRY_MARK) && !Contains(a, WET_MARK)
  }

  /** Two different (area, kind) pairs never share a column name. */
  lemma ColumnNameInjective(a: string, k: Kind, b: string, l: Kind)
    requires ColumnName(a, k) == ColumnName(b, l)
    ensures a == b && k == l
  {
    var x, y := ColumnName(a, k), ColumnName(b, l);
    assert |Suffix(k)| == |Suffix(l)| == 10;
    assert x[|x| - 10..] == Suffix(k);
    assert y[|y| - 10..] == Suffix(l);
    assert a == x[..|x| - 10];
  }

  /** One column of kind `k` per area, in area order (one of the two list comprehensions). */
  function KindColumns(areas: seq<string>, k: Kind): (cols: seq<string>)
    ensures |cols| == |areas|
    ensures forall i | 0 <= i < |areas| :: cols[i] == ColumnName(areas[i], k)
  {
    if |areas| == 0 then [] else [ColumnName(areas[0], k)] + KindColumns(areas[1..], k)
  }

  /** An area's dry and wet columns are different columns. */
  lemma DryWetColumnsDiffer(area: string)
    ensures ColumnName(area, Dry) != ColumnName(area, Wet)
  {
    if ColumnName(area, Dry) == ColumnName(area, Wet) {
      ColumnNameInjective(area, Dry, area, Wet);
    }
  }

  /** The skeleton column list: every area's dry column, then every area's wet column. */
  function SkeletonColumns(areas: seq<string>): (cols: seq<string>)
    ensures |cols| == 2 * |areas|
    ensures forall i | 0 <= i < |areas| ::
      cols[i] == ColumnName(areas[i], Dry) && cols[|areas| + i] == ColumnName(areas[i], Wet)
  {
    KindColumns(areas, Dry) + KindColumns(areas, Wet)
  }

  /** Distinct areas give distinct skeleton columns: a dry name never equals a wet name. */
  lemma SkeletonColumnsDistinct(areas: seq<string>)
    requires Distinct(areas)
    ensures Distinct(SkeletonColumns(areas))
  {
    var cols, n := SkeletonColumns(areas), |areas|;
    forall i, j | 0 <= i < j < |cols|
      ensures cols[i] != cols[j]
    {
      if cols[i] == cols[j] {
        var ai := if i < n then areas[i] else areas[i - n];
        var aj := if j < n then areas[j] else areas[j - n];
        ColumnNameInjective(ai, if i < n then Dry else Wet, aj, if j < n then Dry else Wet);
      }
    }
  }

  /** The columns whose name contains `mark`, in column order (a list comprehension with a filter). */
  function MarkedColumns(cols: seq<string>, mark: string): (r: seq<string>)
    ensures |r| <= |cols|
    ensures forall c :: c in r <==> c in cols && Contains(c, mark)
  {
    if |cols| == 0 then []
    else if Contains(cols[0], mark) then [cols[0]] + MarkedColumns(cols[1..], mark)
    else MarkedColumns(cols[1..], mark)
  }

  /** The dry-waste columns of a table. */
  function DryColumns(cols: seq<string>): seq<string> {
    MarkedColumns(cols, DRY_MARK)
  }

  /** The wet-waste columns of a table. */
  function WetColumns(cols: seq<string>): seq<string> {
    MarkedColumns(cols, WET_MARK)
  }

  /** The area choices on the query page: each dry column with `" Dry Waste"` deleted. */
  function AreaChoices(cols: seq<string>): seq<string> {
    var dry := DryColumns(cols);
    seq(|dry|, i requires 0 <= i < |dry| => StripAll(dry[i], DRY_SUFFIX))
  }

  /** Filtering distributes over concatenation and keeps the order of both halves. */
  lemma {:induction false} MarkedColumnsAppend(xs: seq<string>, ys: seq<string>, mark: string)
    ensures MarkedColumns(xs + ys, mark) == MarkedColumns(xs, mark) + MarkedColumns(ys, mark)
  {
    if |xs| == 0 {
      assert xs + ys == ys;
    } else {
      assert (xs + ys)[1..] == xs[1..] + ys;
      MarkedColumnsAppend(xs[1..], ys, mark);
    }
  }

  /** A column's own mark occurs in its name. */
  lemma OwnMarkInColumn(a: string, k: Kind)
    ensures Contains(ColumnName(a, k), Mark(k))
  {
    var c := ColumnName(a, k);
    assert c[|a| + 1..|a| + 10] == Mark(k);
    assert OccursAt(c, Mark(k), |a| + 1);
  }

  /** The other kind's mark never occurs in the column name of a plain area. */
  lemma OtherMarkNotInColumn(a: string, k: Kind)
    requires PlainArea(a)
    ensures !Contains(ColumnName(a, k), Mark(Other(k)))
  {
    var c, m := ColumnName(a, k), Mark(Other(k));
    assert |c| == |a| + 10 && |m| == 9;
    assert c[|a|] == ' ' && c[|a| + 1] != m[0] && c[|a| + 2] != m[5];
    forall i | 0 <= i <= |c|
      ensures !OccursAt(c, m, i)
    {
      if i + 9 > |c| {
      } else if i + 9 <= |a| {
        assert c[i..i + 9] == a[i..i + 9];
        assert !OccursAt(a, m, i);
      } else if i >= |a| {
        assert c[i..i + 9][0] == c[i] != m[0];
      } else if |a| - i == 3 {
        assert c[i..i + 9][5] == c[|a| + 2];
      } else {
        assert c[i..i + 9][|a| - i] == ' ' != m[|a| - i];
      }
    }
  }

  /** `" Dry Waste"` cannot overlap itself. */
  lemma DrySuffixBorderFree()
    ensures BorderFree(DRY_SUFFIX)
  {
    var p := DRY_SUFFIX;
    forall j | 0 < j < |p|
      ensures p[..j] != p[|p| - j..]
    {
      if j == 6 {
        assert p[..j][1] != p[|p| - j..][1];
      } else {
        assert p[..j][0] != p[|p| - j..][0];
      }
    }
  }

  /** An area name without `"Dry Waste"` has no `" Dry Waste"` either. */
  lemma PlainAreaHasNoDrySuffix(a: string)
    requires PlainArea(a)
    ensures !Contains(a, DRY_SUFFIX)
  {
    forall i | 0 <= i <= |a| && OccursAt(a, DRY_SUFFIX, i)
      ensures false
    {
      assert a[i + 1..i + 10] == a[i..i + 10][1..];
      assert OccursAt(a, DRY_MARK, i + 1);
    }
  }

  /** Area-name recovery: deleting `" Dry Waste"` from a plain area's dry column gives the area back. */
  lemma AreaRecovered(a: string)
    requires PlainArea(a)
    ensures StripAll(ColumnName(a, Dry), DRY_SUFFIX) == a
  {
    DrySuffixBorderFree();
    PlainAreaHasNoDrySuffix(a);
    StripSuffix(a, DRY_SUFFIX);
  }

  /** The columns of kind `k` in the skeleton are exactly that kind's half, in area order. */
  lemma MarkedSkeleton(areas: seq<string>, k: Kind)
    requires forall a <- areas :: PlainArea(a)
    ensures MarkedColumns(SkeletonColumns(areas), Mark(k)) == KindColumns(areas, k)
  {
    MarkedColumnsAppend(KindColumns(areas, Dry), KindColumns(areas, Wet), Mark(k));
    MarkedAll(areas, k);
    MarkedNone(areas, Other(k));
    assert Other(Other(k)) == k;
  }

  /** A column list of one kind passes its own kind's filter whole. */
  lemma {:induction false} MarkedAll(areas: seq<string>, k: Kind)
    ensures MarkedColumns(KindColumns(areas, k), Mark(k)) == KindColumns(areas, k)
  {
    if |areas| > 0 {
      OwnMarkInColumn(areas[0], k);
      MarkedAll(areas[1..], k);
    }
  }

  /** A column list of one kind over plain areas passes none of it through the other kind's filter. */
  lemma {:induction false} MarkedNone(areas: seq<string>, k: Kind)
    requires forall a <- areas :: PlainArea(a)
    ensures MarkedColumns(KindColumns(areas, k), Mark(Other(k))) == []
  {
    if |areas| > 0 {
      OtherMarkNotInColumn(areas[0], k);
      MarkedNone(areas[1..], k);
    }
  }

  /**
   The query page's area selector, built from a skeleton column list, lists exactly
   the areas the skeleton was built from, in the same order.
   */
  lemma AreaChoicesOfSkeleton(areas: seq<string>)
    requires forall a <- areas :: PlainArea(a)
    ensures AreaChoices(SkeletonColumns(areas)) == areas
  {
    MarkedSkeleton(areas, Dry);
    forall i | 0 <= i < |areas|
      ensures AreaChoices(SkeletonColumns(areas))[i] == areas[i]
    {
      AreaRecovered(areas[i]);
    }
  }

  /**
   The selector lists every plain area whose dry column the table has, whatever
   else the table holds and in whatever order: a stored or recorded-into column
   list, not only a skeleton.
   */
  lemma AreaOfDryColumnIsChoice(cols: seq<string>, a: string)
    requires PlainArea(a)
    requires ColumnName(a, Dry) in cols
    ensures a in AreaChoices(cols)
  {
    OwnMarkInColumn(a, Dry);
    var dry := DryColumns(cols);
    assert ColumnName(a, Dry) in dry;
    var i :| 0 <= i < |dry| && dry[i] == ColumnName(a, Dry);
    AreaRecovered(a);
    assert AreaChoices(cols)[i] == a;
  }

  /** A name with no capital W contains neither mark. */
  lemma NoCapitalWIsPlain(a: string)
    requires 'W' !in a
    ensures PlainArea(a)
  {
    forall i | 0 <= i <= |a|
      ensures !OccursAt(a, DRY_MARK, i) && !OccursAt(a, WET_MARK, i)
    {
      if i + 9 <= |a| {
        assert a[i..i + 9][4] == a[i + 4];
      }
    }
  }

  /** No listed area name has a capital W. */
  lemma ListedAreasLackCapitalW()
    ensures forall a <- AREAS :: 'W' !in a
  {
  }

  /** The listed areas are distinct and plain, so every skeleton lemma applies to them. */
  lemma ListedAreasWellChosen()
    ensures Distinct(AREAS)
    ensures forall a <- AREAS :: PlainArea(a)
  {
    ListedAreasLackCapitalW();
    forall a <- AREAS
      ensures PlainArea(a)
    {
      NoCapitalWIsPlain(a);
    }
  }
}
