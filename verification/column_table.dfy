/**
 * The table of column positions of a grid container's layout
 * (setMultipleColPosValues, and the fallback of single-column mode).
 *
 * PHP arrays are ordered maps: writing an existing key replaces its value in
 * place, writing a new key appends it. `ColumnTable` keeps both halves, the
 * keys in insertion order and the entries.
 */
module ColumnTable {
  import opened Records

  /** Column key of a layout cell without an explicit column position. */
  const Unassigned: int := 32768

  /** The `colPos` entry of a layout column: missing, the empty string, or a value cast to int. */
  datatype ColPosSetting = Unset | Blank | Explicit(n: int)

  datatype ColumnConfig = ColumnConfig(
    name: string,
    colPos: ColPosSetting,
    colspan: int,
    rowspan: int,
    maxitems: int
  )

  /** One entry of the layout's `rows.` list: its number and its `columns.` list. */
  datatype LayoutRow = LayoutRow(number: int, columns: seq<ColumnConfig>)

  /**
   * Allow or deny lists of one column for the three content dimensions
   * (CType, list_type, tx_gridelements_backend_layout), as key sets;
   * the key "*" stands for everything.
   */
  datatype TypeRules = TypeRules(cType: set<string>, listType: set<string>, gridType: set<string>)

  /** A layout: the parsed rows and the per-column rule and limit tables. */
  datatype Layout = Layout(
    rows: seq<LayoutRow>,
    rowCount: int,
    allowed: map<int, TypeRules>,
    disallowed: map<int, TypeRules>,
    maxitems: map<int, int>
  )

  datatype ColumnName = Label(raw: string) | NotAssignedLabel | NoName

  /** What a column entry holds under `allowed`/`disallowed`: the layout's rules (maybe missing) or a literal string. */
  datatype RuleSource = Declared(rules: Option<TypeRules>) | Literal(text: string)

  datatype ColumnValues = ColumnValues(name: ColumnName, allowed: RuleSource, disallowed: RuleSource, maxItems: int)

  datatype ColumnTable = ColumnTable(order: seq<int>, entries: map<int, ColumnValues>)

  /** The fixed entry recorded for a column without a column position. */
  const UnassignedValues: ColumnValues := ColumnValues(NotAssignedLabel, Literal(""), Literal("*"), 0)

  ghost predicate Valid(t: ColumnTable)
  {
    && (forall i, j :: 0 <= i < j < |t.order| ==> t.order[i] != t.order[j])
    && (forall k :: k in t.entries <==> k in t.order)
  }

  function ColumnKey(c: ColPosSetting): int
  {
    if c.Explicit? then c.n else Unassigned
  }

  function Lookup<V>(m: map<int, V>, k: int): Option<V>
  {
    if k in m then Some(m[k]) else None
  }

  /** `(int)$layout['maxitems'][$columnKey]`: a missing entry reads as 0. */
  function MaxItemsOf(layout: Layout, k: int): int
  {
    if k in layout.maxitems then layout.maxitems[k] else 0
  }

  function EntryFor(c: ColumnConfig, layout: Layout): ColumnValues
  {
    match c.colPos
    case Explicit(n) =>
      ColumnValues(Label(c.name), Declared(Lookup(layout.allowed, n)), Declared(Lookup(layout.disallowed, n)), MaxItemsOf(layout, n))
    case _ => UnassignedValues
  }

  /** PHP `$a[$k] = $v` on an ordered map. */
  function Put(t: ColumnTable, k: int, v: ColumnValues): ColumnTable
  {
    if k in t.entries then t.(entries := t.entries[k := v])
    else ColumnTable(t.order + [k], t.entries[k := v])
  }

  /** All columns of all rows, in declaration order. */
  function Flatten(rows: seq<LayoutRow>): seq<ColumnConfig>
  {
    if rows == [] then [] else Flatten(rows[..|rows| - 1]) + rows[|rows| - 1].columns
  }

  /** The table after recording every column of `cols`, one after the other. */
  function TableOf(cols: seq<ColumnConfig>, layout: Layout): ColumnTable
  {
    if cols == [] then ColumnTable([], map[])
    else
      var c := cols[|cols| - 1];
      Put(TableOf(cols[..|cols| - 1], layout), ColumnKey(c.colPos), EntryFor(c, layout))
  }

  /** Every column of the layout becomes a table entry; each key is recorded once. */
  method SetMultipleColPosValues(layout: Layout) returns (colPosValues: ColumnTable)
    ensures colPosValues == TableOf(Flatten(layout.rows), layout)
  {
    colPosValues := ColumnTable([], map[]);
    var rows := layout.rows;
    var i := 0;
    while i < |rows|
      invariant 0 <= i <= |rows|
      invariant colPosValues == TableOf(Flatten(rows[..i]), layout)
    {
      colPosValues := SetRowColPosValues(colPosValues, rows[i].columns, layout, Flatten(rows[..i]));
      assert rows[..i + 1][..i] == rows[..i];
      i := i + 1;
    }
    assert rows[..i] == rows;
  }

  /** The inner loop: the columns of one layout row, recorded after the columns `before` of the earlier rows. */
  method SetRowColPosValues(table: ColumnTable, cols: seq<ColumnConfig>, layout: Layout, ghost before: seq<ColumnConfig>)
    returns (colPosValues: ColumnTable)
    requires table == TableOf(before, layout)
    ensures colPosValues == TableOf(before + cols, layout)
  {
    colPosValues := table;
    assert before + cols[..0] == before;
    for j := 0 to |cols|
      invariant colPosValues == TableOf(before + cols[..j], layout)
    {
      var c := cols[j];
      var columnKey := ColumnKey(c.colPos);
      colPosValues := Put(colPosValues, columnKey, EntryFor(c, layout));
      assert (before + cols[..j + 1])[..|before + cols[..j + 1]| - 1] == before + cols[..j];
    }
    assert cols[..|cols|] == cols;
  }

  /** The table holds no key twice and its keys are exactly its entries. */
  lemma {:induction false} TableOfValid(cols: seq<ColumnConfig>, layout: Layout)
    ensures Valid(TableOf(cols, layout))
    decreases |cols|
  {
    if cols != [] {
      TableOfValid(cols[..|cols| - 1], layout);
    }
  }

  /** A key is in the table iff some column of the layout has it. */
  lemma {:induction false} TableOfKeys(cols: seq<ColumnConfig>, layout: Layout, k: int)
    ensures k in TableOf(cols, layout).entries <==> exists i :: 0 <= i < |cols| && ColumnKey(cols[i].colPos) == k
    decreases |cols|
  {
    if cols != [] {
      var n := |cols| - 1;
      TableOfKeys(cols[..n], layout, k);
      if k in TableOf(cols[..n], layout).entries {
        var i :| 0 <= i < n && ColumnKey(cols[..n][i].colPos) == k;
        assert ColumnKey(cols[i].colPos) == k;
      }
      if exists i :: 0 <= i < |cols| && ColumnKey(cols[i].colPos) == k {
        var i :| 0 <= i < |cols| && ColumnKey(cols[i].colPos) == k;
        if i < n {
          assert ColumnKey(cols[..n][i].colPos) == k;
        }
      }
    }
  }

  /** Later columns overwrite earlier ones: a key holds the entry of the last column that has it. */
  lemma {:induction false} TableOfLastWins(cols: seq<ColumnConfig>, layout: Layout, i: int)
    requires 0 <= i < |cols|
    requires forall j :: i < j < |cols| ==> ColumnKey(cols[j].colPos) != ColumnKey(cols[i].colPos)
    ensures ColumnKey(cols[i].colPos) in TableOf(cols, layout).entries
    ensures TableOf(cols, layout).entries[ColumnKey(cols[i].colPos)] == EntryFor(cols[i], layout)
    decreases |cols|
  {
    var n := |cols| - 1;
    if i < n {
      forall j | i < j < n ensures ColumnKey(cols[..n][j].colPos) != ColumnKey(cols[..n][i].colPos) {
        assert cols[..n][j] == cols[j];
      }
      TableOfLastWins(cols[..n], layout, i);
      assert cols[..n][i] == cols[i];
    }
  }

  /**
   * When no column declares 32768 explicitly, the key 32768 is present iff some
   * column lacks a column position, and then it holds the fixed unassigned entry.
   */
  lemma {:induction false} TableOfUnassigned(cols: seq<ColumnConfig>, layout: Layout)
    requires forall i :: 0 <= i < |cols| ==> cols[i].colPos != Explicit(Unassigned)
    ensures Unassigned in TableOf(cols, layout).entries <==> exists i :: 0 <= i < |cols| && !cols[i].colPos.Explicit?
    ensures Unassigned in TableOf(cols, layout).entries ==> TableOf(cols, layout).entries[Unassigned] == UnassignedValues
    decreases |cols|
  {
    if cols != [] {
      var n := |cols| - 1;
      assert forall i :: 0 <= i < n ==> cols[..n][i] == cols[i];
      TableOfUnassigned(cols[..n], layout);
    }
  }

  /**
   * Single-column mode appends `[0, '']` to the empty table: key 0, no name,
   * no rules and no limit.
   */
  function SingleColumnTable(): (t: ColumnTable)
    ensures Valid(t) && t.order == [0]
    ensures t.entries[0].maxItems == 0
  {
    ColumnTable([0], map[0 := ColumnValues(NoName, Declared(None), Declared(None), 0)])
  }
}
