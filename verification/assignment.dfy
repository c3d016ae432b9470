/**
 * Per-column assignment of a grid container's records (second half of
 * renderGridColumns) and the item-limit thresholds of a grid cell.
 */
module Assignment {
  import opened Records
  import opened Sorting

  /** The key `usort` compares in a column: the record's `sorting`. */
  function BySorting(r: Row): seq<int>
  {
    [r.sorting]
  }

  /** The collected records that belong to column `colPos` of container `containerUid`, in collection order. */
  function ColumnItems(collected: seq<Row>, colPos: int, containerUid: int): (items: seq<Row>)
    ensures |items| <= |collected|
  {
    if collected == [] then []
    else
      var last := collected[|collected| - 1];
      ColumnItems(collected[..|collected| - 1], colPos, containerUid)
        + (if last.columns == colPos && last.container == containerUid then [last] else [])
  }

  /** A column holds exactly the collected records that name it and the container. */
  lemma {:induction false} ColumnItemsMembers(collected: seq<Row>, colPos: int, containerUid: int)
    ensures forall r :: r in ColumnItems(collected, colPos, containerUid) <==>
      r in collected && r.columns == colPos && r.container == containerUid
    decreases |collected|
  {
    if collected != [] {
      var n := |collected| - 1;
      ColumnItemsMembers(collected[..n], colPos, containerUid);
      assert collected == collected[..n] + [collected[n]];
    }
  }

  lemma ColumnItemsStep(collected: seq<Row>, i: nat, colPos: int, containerUid: int)
    requires i < |collected|
    ensures ColumnItems(collected[..i + 1], colPos, containerUid)
      == ColumnItems(collected[..i], colPos, containerUid)
         + (if collected[i].columns == colPos && collected[i].container == containerUid then [collected[i]] else [])
  {
    assert collected[..i + 1][..i] == collected[..i];
  }

  /** The candidates of a column: none in single-column mode, where the filter is skipped. */
  function ColumnCandidates(collected: seq<Row>, colPos: int, containerUid: int, singleColumn: bool): seq<Row>
  {
    if singleColumn then [] else ColumnItems(collected, colPos, containerUid)
  }

  /** The filtering loop of one column: its records in collection order and how many are in the container's language. */
  method CollectColumn(collected: seq<Row>, colPos: int, container: Row) returns (items: seq<Row>, counter: nat)
    ensures items == ColumnItems(collected, colPos, container.uid)
    ensures counter == CountMatching(items, container.language)
  {
    counter := 0;
    items := [];
    for i := 0 to |collected|
      invariant items == ColumnItems(collected[..i], colPos, container.uid)
      invariant counter == CountMatching(items, container.language)
    {
      var item := collected[i];
      ColumnItemsStep(collected, i, colPos, container.uid);
      if item.columns == colPos && item.container == container.uid {
        if LanguageMatches(container.language, item.language) {
          counter := counter + 1;
        }
        CountMatchingSnoc(items, item, container.language);
        items := items + [item];
      }
    }
    assert collected[..|collected|] == collected;
  }

  /**
   * One column of renderGridColumns: filter the records of the column, count
   * those in the container's language, then order them by `sorting`.
   */
  method AssignColumn(collected: seq<Row>, colPos: int, container: Row, singleColumn: bool)
    returns (items: seq<Row>, counter: nat)
    ensures items == SortBy(ColumnCandidates(collected, colPos, container.uid, singleColumn), BySorting)
    ensures multiset(items) == multiset(ColumnCandidates(collected, colPos, container.uid, singleColumn))
    ensures SortedBy(items, BySorting)
    ensures forall k :: WithKey(items, BySorting, k) == WithKey(ColumnCandidates(collected, colPos, container.uid, singleColumn), BySorting, k)
    ensures counter == CountMatching(items, container.language)
    ensures singleColumn ==> items == [] && counter == 0
  {
    counter := 0;
    items := [];
    if !singleColumn {
      items, counter := CollectColumn(collected, colPos, container);
    }
    ghost var unsorted := items;
    items := SortBy(items, BySorting);
    SortedColumn(unsorted, container.language);
  }

  /** Ordering a column by `sorting` keeps its records, their count and the order of ties. */
  lemma SortedColumn(unsorted: seq<Row>, language: int)
    ensures SortedBy(SortBy(unsorted, BySorting), BySorting)
    ensures forall k :: WithKey(SortBy(unsorted, BySorting), BySorting, k) == WithKey(unsorted, BySorting, k)
    ensures multiset(SortBy(unsorted, BySorting)) == multiset(unsorted)
    ensures CountMatching(SortBy(unsorted, BySorting), language) == CountMatching(unsorted, language)
  {
    SortByPermutation(unsorted, BySorting);
    SortBySorted(unsorted, BySorting);
    forall k {
      SortByStable(unsorted, BySorting, k);
    }
    CountMatchingPermutation(unsorted, SortBy(unsorted, BySorting), language);
  }

  /** Two different columns never share a record: the columns partition the container's records. */
  lemma ColumnsAreDisjoint(collected: seq<Row>, c1: int, c2: int, containerUid: int, r: Row)
    requires r in ColumnItems(collected, c1, containerUid) && r in ColumnItems(collected, c2, containerUid)
    ensures c1 == c2
  {
    ColumnItemsMembers(collected, c1, containerUid);
    ColumnItemsMembers(collected, c2, containerUid);
  }

  /** "New content" is disabled once a limited column is full. */
  predicate DisableNewContent(count: int, maxItems: int)
  {
    count >= maxItems && maxItems > 0
  }

  /** A limited column holds more than its limit. */
  predicate TooManyItems(count: int, maxItems: int)
  {
    count > maxItems && maxItems > 0
  }

  datatype ItemsStatus = Unlimited | Success | Warning | Danger

  /** The class of the items counter of a grid cell. */
  function MaxItemsStatus(count: int, maxItems: int): (s: ItemsStatus)
    ensures s == Unlimited <==> maxItems <= 0
    ensures s == Danger <==> TooManyItems(count, maxItems)
    ensures s == Warning <==> maxItems > 0 && count == maxItems
    ensures s == Success <==> maxItems > 0 && count < maxItems
    ensures TooManyItems(count, maxItems) ==> DisableNewContent(count, maxItems)
  {
    if maxItems > 0 then
      var s := if DisableNewContent(count, maxItems) then Warning else Success;
      if TooManyItems(count, maxItems) then Danger else s
    else Unlimited
  }
}
