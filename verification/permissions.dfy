/**
 * The effective allow and deny sets of every grid cell, and its item-limit
 * state, as renderGridLayoutTable computes them before writing the cell's
 * data attributes.
 *
 * Three dimensions are filtered: content types (CType), plugin list types
 * (list_type) and nested grid layouts (tx_gridelements_backend_layout). The
 * list and grid dimensions are tied to the content types through the marker
 * values "list" and "gridelements_pi1".
 *
 * The PHP variables of the list and grid dimensions are not reset between
 * cells: in a cell whose content types are all disallowed they keep the
 * previous cell's values, and the statement for that case writes "*" into the
 * grid deny set. The cell loop therefore threads a `CellPerms` from one cell
 * to the next.
 */
module Permissions {
  import opened Records
  import opened ColumnTable
  import opened Assignment

  const ListMarker: string := "list"
  const GridMarker: string := "gridelements_pi1"

  /** The six sets written as data attributes of a cell. */
  datatype CellPerms = CellPerms(
    allowedCType: set<string>,
    disallowedCType: set<string>,
    allowedList: set<string>,
    disallowedList: set<string>,
    allowedGrid: set<string>,
    disallowedGrid: set<string>
  )

  /** The variables before the first cell: all undefined, read as empty. */
  const NoPerms: CellPerms := CellPerms({}, {}, {}, {}, {}, {})

  /** The list and grid sets are each disjoint, and no allow set holds the wildcard. */
  ghost predicate DimensionsConsistent(p: CellPerms)
  {
    && p.allowedList !! p.disallowedList
    && p.allowedGrid !! p.disallowedGrid
    && "*" !in p.allowedList
    && "*" !in p.allowedGrid
  }

  /** Rules of a column in the layout's allowed or disallowed table; a missing column has none. */
  function RulesOf(m: map<int, TypeRules>, k: int): TypeRules
  {
    if k in m then m[k] else TypeRules({}, {}, {})
  }

  /** A key present in both sets is removed from both. */
  function Cancel(allowed: set<string>, disallowed: set<string>): (r: (set<string>, set<string>))
    ensures r.0 !! r.1
    ensures r.0 <= allowed && r.1 <= disallowed
    ensures forall k :: k in r.0 <==> k in allowed && k !in disallowed
    ensures forall k :: k in r.1 <==> k in disallowed && k !in allowed
  {
    (allowed - disallowed, disallowed - allowed)
  }

  /** Cancelling again changes nothing. */
  lemma CancelIdempotent(allowed: set<string>, disallowed: set<string>)
    ensures Cancel(Cancel(allowed, disallowed).0, Cancel(allowed, disallowed).1) == Cancel(allowed, disallowed)
  {
    var once := Cancel(allowed, disallowed);
    assert once.0 - once.1 == once.0;
    assert once.1 - once.0 == once.1;
  }

  /**
   * Content types, when not everything is disallowed: an allow rule holding
   * "*" or nothing leaves the allow set empty (meaning "any"); explicit rules
   * cancel against the deny rules.
   */
  function ContentTypeStep(allowedRule: set<string>, disallowedRule: set<string>): (r: (set<string>, set<string>))
    ensures r.0 !! r.1
    ensures "*" !in r.0
    ensures r.1 <= disallowedRule
    ensures "*" in allowedRule || allowedRule == {} ==> r.0 == {} && r.1 == disallowedRule
    ensures "*" !in allowedRule ==> forall k :: k in r.0 <==> k in allowedRule && k !in disallowedRule
    ensures forall k :: k in r.1 <==> k in disallowedRule && (k !in allowedRule || "*" in allowedRule)
  {
    if "*" !in allowedRule && allowedRule != {} then Cancel(allowedRule, disallowedRule)
    else ({}, disallowedRule)
  }

  datatype DimensionResult = DimensionResult(allowedCType: set<string>, allowed: set<string>, disallowed: set<string>)

  /**
   * The list-type or grid-type dimension, given the content types allowed so
   * far and the dimension's marker content type.
   */
  function DimensionStep(allowedRule: set<string>, disallowedRule: set<string>, allowedCType: set<string>, marker: string)
    : (r: DimensionResult)
    requires marker != "*"
    ensures r.allowed !! r.disallowed && "*" !in r.allowed
    ensures r.allowedCType - {marker} == allowedCType - {marker}
    ensures "*" in disallowedRule ==> r.allowed == {} && marker !in r.allowedCType
    ensures "*" !in disallowedRule && "*" in allowedRule && allowedCType != {} ==> marker in r.allowedCType
    ensures "*" !in disallowedRule && "*" !in allowedRule ==> r.allowedCType == allowedCType
    ensures r.disallowed <= disallowedRule
    ensures allowedCType == {} ==> r.allowedCType == {}
    ensures "*" in disallowedRule ==> r.disallowed == disallowedRule
    ensures "*" !in disallowedRule ==> forall k :: k in r.allowed <==> k in allowedRule && k !in disallowedRule && "*" !in allowedRule
    ensures "*" !in disallowedRule ==> forall k :: k in r.disallowed <==> k in disallowedRule && (k !in allowedRule || "*" in allowedRule)
    ensures marker in r.allowedCType <==>
      "*" !in disallowedRule && (marker in allowedCType || ("*" in allowedRule && allowedCType != {}))
  {
    if "*" in disallowedRule then
      DimensionResult(allowedCType - {marker}, {}, disallowedRule)
    else if "*" !in allowedRule && allowedRule != {} then
      var c := Cancel(allowedRule, disallowedRule);
      DimensionResult(allowedCType, c.0, c.1)
    else
      DimensionResult(if allowedCType != {} && allowedRule != {} then allowedCType + {marker} else allowedCType, {}, disallowedRule)
  }

  /** The sets of one cell from its column's rules and the sets left by the previous cell. */
  function CellPermissions(allowed: TypeRules, disallowed: TypeRules, previous: CellPerms): (r: CellPerms)
    ensures "*" in disallowed.cType ==> r.allowedCType == {}
    ensures "*" !in r.allowedCType
    ensures "*" !in disallowed.cType && "*" in disallowed.listType ==> ListMarker !in r.allowedCType
    ensures "*" !in disallowed.cType && "*" in disallowed.gridType ==> GridMarker !in r.allowedCType
    ensures (r.allowedCType - {ListMarker, GridMarker}) !! r.disallowedCType
    ensures DimensionsConsistent(previous) ==> DimensionsConsistent(r)
    // content types: explicit allow rules cancel against the deny rules, markers aside
    ensures "*" in allowed.cType || allowed.cType <= disallowed.cType ==> r.allowedCType == {}
    ensures "*" !in disallowed.cType ==> forall k :: k != ListMarker && k != GridMarker ==>
      (k in r.allowedCType <==> k in allowed.cType && k !in disallowed.cType && "*" !in allowed.cType)
    ensures "*" in disallowed.cType ==> r.disallowedCType == disallowed.cType
    ensures "*" !in disallowed.cType ==> forall k ::
      k in r.disallowedCType <==> k in disallowed.cType && (k !in allowed.cType || "*" in allowed.cType)
    // list types
    ensures "*" !in disallowed.cType && "*" in disallowed.listType ==>
      r.allowedList == {} && r.disallowedList == disallowed.listType
    ensures "*" !in disallowed.cType && "*" !in disallowed.listType ==> forall k ::
      && (k in r.allowedList <==> k in allowed.listType && k !in disallowed.listType && "*" !in allowed.listType)
      && (k in r.disallowedList <==> k in disallowed.listType && (k !in allowed.listType || "*" in allowed.listType))
    // grid types
    ensures "*" !in disallowed.cType && "*" in disallowed.gridType ==>
      r.allowedGrid == {} && r.disallowedGrid == disallowed.gridType
    ensures "*" !in disallowed.cType && "*" !in disallowed.gridType ==> forall k ::
      && (k in r.allowedGrid <==> k in allowed.gridType && k !in disallowed.gridType && "*" !in allowed.gridType)
      && (k in r.disallowedGrid <==> k in disallowed.gridType && (k !in allowed.gridType || "*" in allowed.gridType))
    // the markers
    ensures ListMarker in r.allowedCType <==>
      && "*" !in disallowed.cType && "*" !in disallowed.listType && "*" !in allowed.cType
      && (ListMarker in allowed.cType - disallowed.cType
          || ("*" in allowed.listType && allowed.cType - disallowed.cType != {}))
    ensures GridMarker in r.allowedCType <==>
      && "*" !in disallowed.cType && "*" !in disallowed.gridType && "*" !in allowed.cType
      && (GridMarker in allowed.cType - disallowed.cType
          || ("*" in allowed.gridType
              && (allowed.cType - disallowed.cType - {ListMarker} != {}
                  || (allowed.cType - disallowed.cType != {} && "*" !in disallowed.listType))))
  {
    if "*" in disallowed.cType then
      previous.(allowedCType := {}, disallowedCType := disallowed.cType, disallowedGrid := previous.disallowedGrid + {"*"})
    else
      var contentTypes := ContentTypeStep(allowed.cType, disallowed.cType);
      var lists := DimensionStep(allowed.listType, disallowed.listType, contentTypes.0, ListMarker);
      var grids := DimensionStep(allowed.gridType, disallowed.gridType, lists.allowedCType, GridMarker);
      CellPerms(grids.allowedCType, contentTypes.1, lists.allowed, lists.disallowed, grids.allowed, grids.disallowed)
  }

  /** An allowed list type "*" with explicit content types adds the marker "list" to them. */
  lemma ListWildcardAddsMarker(allowed: TypeRules, disallowed: TypeRules, previous: CellPerms)
    requires "*" !in disallowed.cType && "*" !in disallowed.listType
    requires "*" !in allowed.cType && allowed.cType - disallowed.cType != {}
    requires "*" in allowed.listType
    ensures ListMarker in CellPermissions(allowed, disallowed, previous).allowedCType
  {
    var contentTypes := ContentTypeStep(allowed.cType, disallowed.cType);
    assert contentTypes.0 == allowed.cType - disallowed.cType;
  }

  /** An allowed grid type "*" with explicit content types adds the marker "gridelements_pi1" to them. */
  lemma GridWildcardAddsMarker(allowed: TypeRules, disallowed: TypeRules, previous: CellPerms)
    requires "*" !in disallowed.cType && "*" !in disallowed.listType && "*" !in disallowed.gridType
    requires "*" !in allowed.cType && allowed.cType - disallowed.cType != {}
    requires "*" in allowed.gridType
    ensures GridMarker in CellPermissions(allowed, disallowed, previous).allowedCType
  {
    var contentTypes := ContentTypeStep(allowed.cType, disallowed.cType);
    assert contentTypes.0 == allowed.cType - disallowed.cType;
    var lists := DimensionStep(allowed.listType, disallowed.listType, contentTypes.0, ListMarker);
    var x :| x in contentTypes.0;
    if x != ListMarker {
      assert x in lists.allowedCType;
    }
  }

  /**
   * The marker is added after the cancellation, so a cell may allow and
   * disallow "list" at once: deny "list", allow "text" and every list type.
   */
  lemma MarkerCanBeAllowedAndDisallowed()
    ensures var r := CellPermissions(TypeRules({"text"}, {"*"}, {}), TypeRules({"list"}, {}, {}), NoPerms);
      ListMarker in r.allowedCType && ListMarker in r.disallowedCType
  {
    var contentTypes := ContentTypeStep({"text"}, {"list"});
    assert "text" in contentTypes.0;
  }

  /** In a cell whose content types are all disallowed, "*" joins the previous cell's grid deny set. */
  lemma WildcardCellKeepsPreviousDimensions(allowed: TypeRules, disallowed: TypeRules, previous: CellPerms)
    requires "*" in disallowed.cType
    ensures var r := CellPermissions(allowed, disallowed, previous);
      && r.allowedList == previous.allowedList && r.disallowedList == previous.disallowedList
      && r.allowedGrid == previous.allowedGrid && r.disallowedGrid == previous.disallowedGrid + {"*"}
  {
  }

  /** What the cell writes as its allowed content types: "*" when the set is empty. */
  function AllowedCTypeShown(allowedCType: set<string>): (shown: set<string>)
    requires "*" !in allowedCType
    ensures shown != {}
    ensures "*" in shown <==> allowedCType == {}
    ensures allowedCType != {} ==> shown == allowedCType
  {
    if allowedCType == {} then {"*"} else allowedCType
  }

  datatype GridCell = GridCell(
    columnKey: int,
    perms: CellPerms,
    maxItems: int,
    numberOfItems: int,
    disableNewContent: bool,
    tooManyItems: bool,
    status: ItemsStatus
  )

  /** One cell: its column key, its sets and the state of its item limit. */
  function CellOf(c: ColumnConfig, layout: Layout, numberOfItems: map<int, int>, previous: CellPerms): GridCell
  {
    var columnKey := ColumnKey(c.colPos);
    var perms := CellPermissions(RulesOf(layout.allowed, columnKey), RulesOf(layout.disallowed, columnKey), previous);
    var count := if columnKey in numberOfItems then numberOfItems[columnKey] else 0;
    GridCell(columnKey, perms, c.maxitems, count,
      DisableNewContent(count, c.maxitems), TooManyItems(count, c.maxitems), MaxItemsStatus(count, c.maxitems))
  }

  /** The columns of the first `rows.` entry numbered `number`; none when there is no such entry. */
  function RowColumns(rows: seq<LayoutRow>, number: int): seq<ColumnConfig>
  {
    if rows == [] then []
    else if rows[0].number == number then rows[0].columns
    else RowColumns(rows[1..], number)
  }

  /** The cells of rows 1..n, in table order. */
  function SelectedColumns(rows: seq<LayoutRow>, n: int): seq<ColumnConfig>
    decreases n
  {
    if n <= 0 then [] else SelectedColumns(rows, n - 1) + RowColumns(rows, n)
  }

  datatype Threaded = Threaded(cells: seq<GridCell>, carry: CellPerms)

  /** The cells of `cols`, each computed from the sets the previous one left behind. */
  function Cells(cols: seq<ColumnConfig>, layout: Layout, numberOfItems: map<int, int>): Threaded
  {
    if cols == [] then Threaded([], NoPerms)
    else
      var before := Cells(cols[..|cols| - 1], layout, numberOfItems);
      var cell := CellOf(cols[|cols| - 1], layout, numberOfItems, before.carry);
      Threaded(before.cells + [cell], cell.perms)
  }

  /** Appending a column appends the cell computed from the sets the last cell left. */
  lemma CellsSnoc(cols: seq<ColumnConfig>, c: ColumnConfig, layout: Layout, numberOfItems: map<int, int>)
    ensures var before := Cells(cols, layout, numberOfItems);
      var cell := CellOf(c, layout, numberOfItems, before.carry);
      Cells(cols + [c], layout, numberOfItems) == Threaded(before.cells + [cell], cell.perms)
  {
    assert (cols + [c])[..|cols + [c]| - 1] == cols;
  }

  lemma PrefixStep(before: seq<ColumnConfig>, cols: seq<ColumnConfig>, j: nat)
    requires j < |cols|
    ensures before + cols[..j + 1] == (before + cols[..j]) + [cols[j]]
  {
    assert cols[..j + 1] == cols[..j] + [cols[j]];
  }

  /** The cells of one table row, continuing from the cells of the rows above. */
  method RenderGridRow(cols: seq<ColumnConfig>, layout: Layout, numberOfItems: map<int, int>,
                       cells0: seq<GridCell>, carry0: CellPerms, ghost before: seq<ColumnConfig>)
    returns (cells: seq<GridCell>, carry: CellPerms)
    requires Threaded(cells0, carry0) == Cells(before, layout, numberOfItems)
    ensures Threaded(cells, carry) == Cells(before + cols, layout, numberOfItems)
  {
    cells, carry := cells0, carry0;
    assert before + cols[..0] == before;
    for j := 0 to |cols|
      invariant Threaded(cells, carry) == Cells(before + cols[..j], layout, numberOfItems)
    {
      var cell := CellOf(cols[j], layout, numberOfItems, carry);
      CellsSnoc(before + cols[..j], cols[j], layout, numberOfItems);
      PrefixStep(before, cols, j);
      cells := cells + [cell];
      carry := cell.perms;
    }
    assert cols[..|cols|] == cols;
  }

  /** The cell loop of renderGridLayoutTable over rows 1..rowCount. */
  method RenderGridLayoutTable(layout: Layout, numberOfItems: map<int, int>) returns (cells: seq<GridCell>)
    ensures cells == Cells(SelectedColumns(layout.rows, layout.rowCount), layout, numberOfItems).cells
  {
    cells := [];
    var carry := NoPerms;
    var layoutRow := 1;
    while layoutRow <= layout.rowCount
      invariant 1 <= layoutRow && (layoutRow <= layout.rowCount + 1 || layoutRow == 1)
      invariant Threaded(cells, carry) == Cells(SelectedColumns(layout.rows, layoutRow - 1), layout, numberOfItems)
    {
      var cols := RowColumns(layout.rows, layoutRow);
      cells, carry := RenderGridRow(cols, layout, numberOfItems, cells, carry, SelectedColumns(layout.rows, layoutRow - 1));
      layoutRow := layoutRow + 1;
    }
    assert SelectedColumns(layout.rows, layoutRow - 1) == SelectedColumns(layout.rows, layout.rowCount);
  }

  /** Every cell keeps the list and grid sets disjoint, across the carried-over variables too. */
  lemma {:induction false} CellsConsistent(cols: seq<ColumnConfig>, layout: Layout, numberOfItems: map<int, int>)
    ensures DimensionsConsistent(Cells(cols, layout, numberOfItems).carry)
    ensures forall i :: 0 <= i < |Cells(cols, layout, numberOfItems).cells| ==>
      DimensionsConsistent(Cells(cols, layout, numberOfItems).cells[i].perms)
    ensures |Cells(cols, layout, numberOfItems).cells| == |cols|
    decreases |cols|
  {
    if cols != [] {
      CellsConsistent(cols[..|cols| - 1], layout, numberOfItems);
    }
  }

  /** Cell `i` is the cell of column `cols[i]`: it carries that column's key. */
  lemma {:induction false} CellsColumnKeys(cols: seq<ColumnConfig>, layout: Layout, numberOfItems: map<int, int>)
    ensures |Cells(cols, layout, numberOfItems).cells| == |cols|
    ensures forall i :: 0 <= i < |cols| ==> Cells(cols, layout, numberOfItems).cells[i].columnKey == ColumnKey(cols[i].colPos)
    decreases |cols|
  {
    if cols != [] {
      var n := |cols| - 1;
      CellsColumnKeys(cols[..n], layout, numberOfItems);
      assert forall i :: 0 <= i < n ==> cols[..n][i] == cols[i];
    }
  }

  /** The columns of row `j` are columns of the layout. */
  lemma {:induction false} RowDeclared(rows: seq<LayoutRow>, j: int, c: ColumnConfig)
    requires 0 <= j < |rows| && c in rows[j].columns
    ensures c in Flatten(rows)
    decreases |rows|
  {
    var n := |rows| - 1;
    if j < n {
      RowDeclared(rows[..n], j, c);
    }
  }

  /** The columns found for a row number are those of some row, or none. */
  lemma {:induction false} RowColumnsOfSomeRow(rows: seq<LayoutRow>, number: int)
    ensures RowColumns(rows, number) == [] || exists j :: 0 <= j < |rows| && RowColumns(rows, number) == rows[j].columns
    decreases |rows|
  {
    if rows != [] && rows[0].number != number {
      RowColumnsOfSomeRow(rows[1..], number);
      if RowColumns(rows[1..], number) != [] {
        var j :| 0 <= j < |rows[1..]| && RowColumns(rows[1..], number) == rows[1..][j].columns;
        assert RowColumns(rows, number) == rows[j + 1].columns;
      }
    }
  }

  /** Every cell of the layout table is a column the layout declares. */
  lemma {:induction false} SelectedColumnsDeclared(rows: seq<LayoutRow>, n: int, c: ColumnConfig)
    requires c in SelectedColumns(rows, n)
    ensures c in Flatten(rows)
    decreases n
  {
    if c in SelectedColumns(rows, n - 1) {
      SelectedColumnsDeclared(rows, n - 1, c);
    } else {
      RowColumnsOfSomeRow(rows, n);
      var j :| 0 <= j < |rows| && RowColumns(rows, n) == rows[j].columns;
      RowDeclared(rows, j, c);
    }
  }
}
