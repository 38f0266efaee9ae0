/**
 * `JoinToLocation`: a query whose rows carry a `location_id` and a time,
 * joined to a spatial unit's table of locations so that each row gains the
 * spatial unit's location columns. The spatial unit and the left query are
 * modelled by what the join reads from them: column names, attributes and,
 * for the join itself, their rows.
 */
module JoinToLocations {
  import opened Wrappers
  import opened SeqUtil
  import Dates

  /** The part of a query the join reads: its column names and its other attributes by name. */
  datatype LeftQuery = LeftQuery(columnNames: seq<string>, attrs: map<string, string>)

  /**
   * A spatial unit: whether it is the cell-level unit, the columns that
   * identify a location in it, and its other attributes by name.
   */
  datatype SpatialUnit = SpatialUnit(isCellUnit: bool, locationColumns: seq<string>, attrs: map<string, string>)

  datatype JoinToLocation = JoinToLocation(left: LeftQuery, spatialUnit: SpatialUnit, timeCol: string)

  datatype JoinError = CellSpatialUnitNotValid

  const DefaultTimeCol := "time"

  /** The constructor: the cell-level unit has nothing to join, every other unit is kept as given. */
  function MakeJoinToLocation(left: LeftQuery, spatialUnit: SpatialUnit, timeCol: string): (r: Result<JoinToLocation, JoinError>)
    ensures r.Err? <==> spatialUnit.isCellUnit
    ensures r.Ok? ==> r.value.left == left && r.value.spatialUnit == spatialUnit && r.value.timeCol == timeCol
  {
    if spatialUnit.isCellUnit then Err(CellSpatialUnitNotValid)
    else Ok(JoinToLocation(left, spatialUnit, timeCol))
  }

  // ---------------------------------------------------------------------
  // Attribute delegation
  // ---------------------------------------------------------------------

  datatype AttrError = AttributeError

  /**
   * `__getattr__`, which Python consults only for a name the object itself
   * lacks: hidden names (leading underscore) are refused; any other name is
   * looked up on the left query first, then on the spatial unit.
   */
  function GetAttr(j: JoinToLocation, name: string): (r: Result<string, AttrError>)
    ensures StartsWith(name, "_") ==> r.Err?
    ensures r.Ok? <==> !StartsWith(name, "_") && (name in j.left.attrs || name in j.spatialUnit.attrs)
    ensures r.Ok? && name in j.left.attrs ==> r.value == j.left.attrs[name]
    ensures r.Ok? && name !in j.left.attrs ==> r.value == j.spatialUnit.attrs[name]
  {
    if StartsWith(name, "_") then Err(AttributeError)
    else if name in j.left.attrs then Ok(j.left.attrs[name])
    else if name in j.spatialUnit.attrs then Ok(j.spatialUnit.attrs[name])
    else Err(AttributeError)
  }

  // ---------------------------------------------------------------------
  // Column names
  // ---------------------------------------------------------------------

  /** Where the first `x` sits in `s`. */
  function FirstIndexOf(s: seq<string>, x: string): (i: nat)
    requires x in s
    ensures i < |s| && s[i] == x && x !in s[..i]
  {
    if s[0] == x then 0
    else
      assert x in s[1..] by {
        assert s == [s[0]] + s[1..];
      }
      var i := FirstIndexOf(s[1..], x);
      assert s[..i + 1] == [s[0]] + s[1..][..i];
      i + 1
  }

  /** `s.remove(x)`: drop the first occurrence of `x` (the caller checks `x in s`). */
  function RemoveFirst(s: seq<string>, x: string): (r: seq<string>)
    ensures multiset(r) == multiset(s) - multiset{x}
    ensures IsSubsequence(r, s)
    ensures x !in s ==> r == s
    ensures x in s ==> exists i :: 0 <= i < |s| && s[i] == x && x !in s[..i] && r == s[..i] + s[i + 1..]
  {
    if x !in s then
      SubsequenceReflexive(s);
      s
    else
      var i := FirstIndexOf(s, x);
      RemoveAtMultiset(s, i);
      RemoveAtSubsequence(s, i);
      s[..i] + s[i + 1..]
  }

  /** `RemoveFirst` walks the list from the front. */
  lemma RemoveFirstStep(s: seq<string>, x: string)
    requires |s| > 0
    ensures RemoveFirst(s, x) == if s[0] == x then s[1..] else [s[0]] + RemoveFirst(s[1..], x)
  {
    if s[0] == x {
      assert FirstIndexOf(s, x) == 0;
      assert s[..0] + s[1..] == s[1..];
    } else if x in s {
      SplicePastHead(s, x);
    } else {
      assert x !in s[1..];
    }
  }

  /** Behind a head that is not `x`, the first `x` of the whole is the first `x` of the tail. */
  lemma SplicePastHead(s: seq<string>, x: string)
    requires |s| > 0 && s[0] != x && x in s
    ensures x in s[1..]
    ensures var i, j := FirstIndexOf(s, x), FirstIndexOf(s[1..], x);
            s[..i] + s[i + 1..] == [s[0]] + (s[1..][..j] + s[1..][j + 1..])
  {
    assert s == [s[0]] + s[1..];
    var j := FirstIndexOf(s[1..], x);
    assert FirstIndexOf(s, x) == j + 1;
    assert s[..j + 1] == [s[0]] + s[1..][..j];
    assert s[j + 2..] == s[1..][j + 1..];
  }

  /**
   * The left columns with, for each name, its first `budget[name]`
   * occurrences dropped: walking from the front, an occurrence is dropped
   * while the budget for its name lasts.
   */
  function DropEarliest(s: seq<string>, budget: multiset<string>): (r: seq<string>)
    decreases |s|
  {
    if |s| == 0 then []
    else if budget[s[0]] > 0 then DropEarliest(s[1..], budget - multiset{s[0]})
    else [s[0]] + DropEarliest(s[1..], budget)
  }

  /** Removing the first `x` and then dropping by `budget` drops by one more `x`. */
  lemma {:induction false} RemoveFirstThenDrop(s: seq<string>, x: string, budget: multiset<string>)
    ensures DropEarliest(RemoveFirst(s, x), budget) == DropEarliest(s, budget + multiset{x})
    decreases |s|
  {
    if |s| > 0 {
      RemoveFirstStep(s, x);
    }
    if |s| > 0 && s[0] != x {
      var rest := RemoveFirst(s[1..], x);
      assert ([s[0]] + rest)[0] == s[0] && ([s[0]] + rest)[1..] == rest;
      if budget[s[0]] > 0 {
        RemoveFirstThenDrop(s[1..], x, budget - multiset{s[0]});
        assert budget - multiset{s[0]} + multiset{x} == budget + multiset{x} - multiset{s[0]};
      } else {
        RemoveFirstThenDrop(s[1..], x, budget);
      }
    } else if |s| > 0 {
      assert budget + multiset{x} - multiset{s[0]} == budget;
    }
  }

  /** The loop over the right columns: each one found among the left columns removes its first occurrence. */
  function RemoveColumns(left: seq<string>, right: seq<string>): (r: seq<string>)
    ensures multiset(r) == multiset(left) - multiset(right)
    ensures IsSubsequence(r, left)
    decreases |right|
  {
    if |right| == 0 then
      SubsequenceReflexive(left);
      left
    else
      var once := if right[0] in left then RemoveFirst(left, right[0]) else left;
      assert once == RemoveFirst(left, right[0]);
      var r := RemoveColumns(once, right[1..]);
      HeadMultiset(right);
      DifferenceStep(multiset(left), right[0], multiset(right[1..]));
      SubsequenceTransitive(r, once, left);
      r
  }

  /**
   * Removing the right columns one by one drops, for each name, its
   * earliest occurrences among the left columns, as many as the right
   * columns hold.
   */
  lemma {:induction false} RemoveColumnsDropsEarliest(left: seq<string>, right: seq<string>)
    ensures RemoveColumns(left, right) == DropEarliest(left, multiset(right))
    decreases |right|
  {
    if |right| == 0 {
      NothingDropped(left);
    } else {
      var once := RemoveFirst(left, right[0]);
      RemoveColumnsDropsEarliest(once, right[1..]);
      RemoveFirstThenDrop(left, right[0], multiset(right[1..]));
      HeadMultiset(right);
      assert multiset(right[1..]) + multiset{right[0]} == multiset(right);
    }
  }

  /** A location column occurring twice on the left loses its first occurrence only. */
  lemma RepeatedColumnLosesFirst()
    ensures RemoveColumns(["pcod", "subscriber", "pcod"], ["pcod"]) == ["subscriber", "pcod"]
  {
    var left := ["pcod", "subscriber", "pcod"];
    assert FirstIndexOf(left, "pcod") == 0;
    assert left[..0] + left[1..] == ["subscriber", "pcod"];
  }

  /** With no budget nothing is dropped. */
  lemma {:induction false} NothingDropped(s: seq<string>)
    ensures DropEarliest(s, multiset{}) == s
    decreases |s|
  {
    if |s| > 0 {
      NothingDropped(s[1..]);
      assert s == [s[0]] + s[1..];
    }
  }

  lemma HeadMultiset(s: seq<string>)
    requires |s| > 0
    ensures multiset(s) == multiset{s[0]} + multiset(s[1..])
  {
    assert s == [s[0]] + s[1..];
  }

  lemma DifferenceStep(a: multiset<string>, x: string, b: multiset<string>)
    ensures (a - multiset{x}) - b == a - (multiset{x} + b)
  {
  }

  /** The left query's columns that the join keeps. */
  function KeptLeftColumns(j: JoinToLocation): (r: seq<string>)
    ensures IsSubsequence(r, j.left.columnNames)
    ensures multiset(r) == multiset(j.left.columnNames) - multiset(j.spatialUnit.locationColumns)
    ensures r == DropEarliest(j.left.columnNames, multiset(j.spatialUnit.locationColumns))
  {
    RemoveColumnsDropsEarliest(j.left.columnNames, j.spatialUnit.locationColumns);
    RemoveColumns(j.left.columnNames, j.spatialUnit.locationColumns)
  }

  /**
   * `column_names`: the left query's columns, less the first occurrence of
   * each location column, followed by the location columns in order.
   */
  function ColumnNames(j: JoinToLocation): (r: seq<string>)
    ensures var right := j.spatialUnit.locationColumns;
            && |r| >= |right| && r[|r| - |right|..] == right
            && r[..|r| - |right|] == KeptLeftColumns(j)
  {
    KeptLeftColumns(j) + j.spatialUnit.locationColumns
  }

  /** Without a shared column nothing is removed. */
  lemma DisjointColumnsKept(j: JoinToLocation)
    requires forall c :: c in j.left.columnNames ==> c !in j.spatialUnit.locationColumns
    ensures ColumnNames(j) == j.left.columnNames + j.spatialUnit.locationColumns
  {
    var left, right := j.left.columnNames, j.spatialUnit.locationColumns;
    var kept := KeptLeftColumns(j);
    assert multiset(left) - multiset(right) == multiset(left) by {
      forall c ensures (multiset(left) - multiset(right))[c] == multiset(left)[c] {
        if c in left { assert c !in multiset(right); }
      }
    }
    assert |kept| == |multiset(kept)| == |left|;
    SubsequenceLength(kept, left);
  }

  /**
   * With distinct columns on each side, every column appears exactly once
   * in the joined query's columns: shared ones now come from the spatial unit.
   */
  lemma ColumnNamesDistinct(j: JoinToLocation, c: string)
    requires forall x :: multiset(j.left.columnNames)[x] <= 1
    requires forall x :: multiset(j.spatialUnit.locationColumns)[x] <= 1
    ensures multiset(ColumnNames(j))[c] == if c in j.left.columnNames || c in j.spatialUnit.locationColumns then 1 else 0
  {
    assert multiset(ColumnNames(j)) == multiset(KeptLeftColumns(j)) + multiset(j.spatialUnit.locationColumns);
  }

  // ---------------------------------------------------------------------
  // The query
  // ---------------------------------------------------------------------

  /** One item of the SELECT list: a column of the left query (`l`) or of the sites (`sites`). */
  datatype SelectItem = FromLeft(column: string) | FromSites(column: string)

  /** The SELECT list `_make_query` writes: the kept left columns, then the location columns. */
  function SelectList(j: JoinToLocation): (r: seq<SelectItem>)
    ensures var kept := KeptLeftColumns(j);
            && |r| == |kept| + |j.spatialUnit.locationColumns|
            && (forall i :: 0 <= i < |r| ==> (r[i].FromLeft? <==> i < |kept|))
  {
    var right := j.spatialUnit.locationColumns;
    var kept := KeptLeftColumns(j);
    seq(|kept|, i requires 0 <= i < |kept| => FromLeft(kept[i])) + seq(|right|, i requires 0 <= i < |right| => FromSites(right[i]))
  }

  /**
   * The query selects the columns `column_names` reports, in the same
   * order, the kept left ones from the left query and the location columns
   * from the spatial unit.
   */
  lemma SelectListMatchesColumnNames(j: JoinToLocation)
    ensures var r := SelectList(j);
            && |r| == |ColumnNames(j)|
            && forall i :: 0 <= i < |r| ==> r[i].column == ColumnNames(j)[i]
  {
    var r, names, kept := SelectList(j), ColumnNames(j), KeptLeftColumns(j);
    forall i | 0 <= i < |r| ensures r[i].column == names[i] {
      if i < |kept| {
        assert names[i] == kept[i];
      } else {
        assert names[i] == j.spatialUnit.locationColumns[i - |kept|];
      }
    }
  }

  // ---------------------------------------------------------------------
  // The join condition
  // ---------------------------------------------------------------------

  /** A row of the left query: its location and its time (microseconds, as in `Dates`). */
  datatype LeftRow = LeftRow(locationId: string, time: int)

  /** A row of the spatial unit: its location and the days its service started and ended, when known. */
  datatype Site = Site(locationId: string, firstService: Option<int>, lastService: Option<int>)

  /**
   * The ON clause: the same location, and the row's date between the first
   * and last day of service, both included; a missing day is no bound.
   */
  predicate Joins(l: LeftRow, s: Site) {
    var day := Dates.DayOf(l.time);
    l.locationId == s.locationId &&
    s.firstService.GetOr(day) <= day && day <= s.lastService.GetOr(day)
  }

  /** The rows the INNER JOIN produces, one per joining pair, left rows in order. */
  function JoinRows(rows: seq<LeftRow>, sites: seq<Site>): (r: seq<(LeftRow, Site)>)
    ensures forall l, s :: (l, s) in r <==> l in rows && s in sites && Joins(l, s)
    decreases |rows|
  {
    if |rows| == 0 then []
    else
      var matches := Matches(rows[0], sites);
      var rest := JoinRows(rows[1..], sites);
      assert forall l :: l in rows <==> l == rows[0] || l in rows[1..];
      matches + rest
  }

  /** The sites a left row joins, in order. */
  function Matches(l: LeftRow, sites: seq<Site>): (r: seq<(LeftRow, Site)>)
    ensures forall l', s :: (l', s) in r <==> l' == l && s in sites && Joins(l, s)
    decreases |sites|
  {
    if |sites| == 0 then []
    else
      var rest := Matches(l, sites[1..]);
      assert forall s :: s in sites <==> s == sites[0] || s in sites[1..];
      if Joins(l, sites[0]) then [(l, sites[0])] + rest else rest
  }

  /** A site without service dates joins every row at its location. */
  lemma UnboundedSiteJoinsAll(l: LeftRow, loc: string)
    ensures Joins(l, Site(loc, None, None)) <==> l.locationId == loc
  {
  }

  /** Only the date of the row's time counts: any time on the last day of service still joins. */
  lemma LastDayIncluded(loc: string, first: int, last: int, t: int)
    requires first <= last
    requires 0 <= t < Dates.MicrosPerDay
    ensures Joins(LeftRow(loc, last * Dates.MicrosPerDay + t), Site(loc, Some(first), Some(last)))
    ensures !Joins(LeftRow(loc, (last + 1) * Dates.MicrosPerDay + t), Site(loc, Some(first), Some(last)))
  {
    Dates.DayOfAddDays(t, last);
    Dates.DayOfAddDays(t, last + 1);
    assert Dates.DayOf(t) == 0;
    assert last * Dates.MicrosPerDay + t == t + last * Dates.MicrosPerDay;
    assert (last + 1) * Dates.MicrosPerDay + t == t + (last + 1) * Dates.MicrosPerDay;
  }

  /** Dropping a bound never loses a row. */
  lemma DroppingBoundKeepsRows(l: LeftRow, s: Site)
    requires Joins(l, s)
    ensures Joins(l, s.(firstService := None)) && Joins(l, s.(lastService := None))
  {
  }
}
