/**
 * The rendering state of the hook object: the per-language translation cache
 * and the stale-translation warnings it enqueues, the rendering of one grid
 * column (running count, over-limit and highlight flags, edit uid list) and
 * the driver that renders every column of a grid container.
 *
 * The flash-message queue is modelled as the sequence of languages for which
 * a warning was enqueued. The page's TSconfig override
 * (allowInconsistentLanguageHandling) and the editing permission of the
 * current user are boolean parameters.
 */
module GridRendering {
  import opened Records
  import opened Sorting
  import opened ColumnTable
  import opened Workspace
  import opened Assignment
  import opened Permissions

  /** The two flags of one cache entry; an entry exists only once one of them was set. */
  datatype TranslationFlags = TranslationFlags(standalone: bool, translations: bool)

  predicate Populated(f: TranslationFlags)
  {
    f.standalone || f.translations
  }

  /** What a scan of the content elements finds: standalone content and translated content. */
  function ScanFlags(elements: seq<Row>): (f: TranslationFlags)
    ensures f.standalone <==> exists i :: 0 <= i < |elements| && elements[i].l18nParent == 0
    ensures f.translations <==> exists i :: 0 <= i < |elements| && elements[i].l18nParent > 0
  {
    if elements == [] then TranslationFlags(false, false)
    else
      var n := |elements| - 1;
      var f := ScanFlags(elements[..n]);
      assert forall i :: 0 <= i < n ==> elements[..n][i] == elements[i];
      TranslationFlags(f.standalone || elements[n].l18nParent == 0, f.translations || elements[n].l18nParent > 0)
  }

  /** Languages the check never blocks: the default language, all languages, or the override is set. */
  predicate Exempt(language: int, allowInconsistent: bool)
  {
    language == 0 || language == -1 || allowInconsistent
  }

  /** The cache after one check: a language not yet cached is scanned and stored if the scan found anything. */
  function CheckedCache(cache: map<int, TranslationFlags>, elements: seq<Row>, language: int, allowInconsistent: bool)
    : map<int, TranslationFlags>
  {
    if Exempt(language, allowInconsistent) || language in cache || !Populated(ScanFlags(elements)) then cache
    else cache[language := ScanFlags(elements)]
  }

  /** One check enqueues a warning iff it scans and finds standalone and translated content mixed. */
  predicate WarnsOnCheck(cache: map<int, TranslationFlags>, elements: seq<Row>, language: int, allowInconsistent: bool)
  {
    !Exempt(language, allowInconsistent) && language !in cache
    && ScanFlags(elements).standalone && ScanFlags(elements).translations
  }

  /** The answer of the check once the cache holds `cache`: new content is blocked. */
  predicate Blocks(cache: map<int, TranslationFlags>, language: int, allowInconsistent: bool)
  {
    !Exempt(language, allowInconsistent) && language in cache && cache[language].translations
  }

  /** The check answers the cached flag of a cached language and otherwise what the scan found. */
  lemma CheckAnswer(cache: map<int, TranslationFlags>, elements: seq<Row>, language: int, allowInconsistent: bool)
    ensures Blocks(CheckedCache(cache, elements, language, allowInconsistent), language, allowInconsistent) <==>
      !Exempt(language, allowInconsistent) &&
      (if language in cache then cache[language].translations
       else exists i :: 0 <= i < |elements| && elements[i].l18nParent > 0)
  {
  }

  /** A cached language is never scanned again: the cache stays and no warning is enqueued, whatever the elements. */
  lemma CachedLanguageNotRescanned(cache: map<int, TranslationFlags>, elements: seq<Row>, language: int, allowInconsistent: bool)
    requires language in cache
    ensures CheckedCache(cache, elements, language, allowInconsistent) == cache
    ensures !WarnsOnCheck(cache, elements, language, allowInconsistent)
  {
  }

  /** Checking the same elements twice is checking them once. */
  lemma CheckSettles(cache: map<int, TranslationFlags>, elements: seq<Row>, language: int, allowInconsistent: bool)
    ensures var once := CheckedCache(cache, elements, language, allowInconsistent);
      CheckedCache(once, elements, language, allowInconsistent) == once
      && !WarnsOnCheck(once, elements, language, allowInconsistent)
  {
  }

  /** A check over no elements changes nothing: it only reads the cache. */
  lemma EmptyCheckReadsOnly(cache: map<int, TranslationFlags>, language: int, allowInconsistent: bool)
    ensures CheckedCache(cache, [], language, allowInconsistent) == cache
    ensures !WarnsOnCheck(cache, [], language, allowInconsistent)
  {
  }

  /** One rendered record of a column. */
  datatype RenderedItem = RenderedItem(
    position: nat,            // index of the record in the column's list
    uid: int,
    overLimit: bool,          // marked t3-page-ce-danger for the item limit
    highlighted: bool,        // marked t3-page-ce-danger as untranslated content in a translated language
    offersNewContent: bool    // the "new content" button after the record
  )

  /**
   * What one rendering of a column appends to the column's grid content: the
   * column's own "new content" button, offered or not, ahead of its records
   * as rendered.
   */
  datatype ColumnBlock = ColumnBlock(offersNewContent: bool, items: seq<RenderedItem>)

  /** What the rendering of one column depends on besides its records. */
  datatype ColumnContext = ColumnContext(
    colPos: int,
    maxItems: int,
    containerLanguage: int,
    mayEdit: bool,            // content not locked for editors and the user may edit content on the page
    allowInconsistent: bool
  )

  /** An assigned column checks the container's language before any record when the user may edit. */
  predicate ChecksBeforeItems(ctx: ColumnContext)
  {
    ctx.colPos < Unassigned && ctx.mayEdit
  }

  /** A record is highlighted when the cache says its language has translations and it is no translation itself. */
  predicate Highlighted(cache: map<int, TranslationFlags>, item: Row, allowInconsistent: bool)
  {
    Blocks(cache, item.language, allowInconsistent) && item.l18nParent == 0
  }

  /**
   * The rendered records of `prefix`. `before` is the cache when the column
   * starts, `after` the cache once the container's language was checked
   * against the whole column: a record's highlight reads `after` only when a
   * check already ran, before the records or for an earlier record.
   */
  function RenderedOf(prefix: seq<Row>, ctx: ColumnContext, before: map<int, TranslationFlags>, after: map<int, TranslationFlags>)
    : seq<RenderedItem>
  {
    if prefix == [] then []
    else
      var n := |prefix| - 1;
      var init := RenderedOf(prefix[..n], ctx, before, after);
      var item := prefix[n];
      if item.state == DeletePlaceholder then init
      else
        var seen := if ChecksBeforeItems(ctx) || (ctx.mayEdit && init != []) then after else before;
        init + [RenderedItem(
          n, item.uid,
          CountMatching(prefix, ctx.containerLanguage) > ctx.maxItems && ctx.maxItems > 0,
          Highlighted(seen, item, ctx.allowInconsistent),
          ctx.mayEdit && !Blocks(after, ctx.containerLanguage, ctx.allowInconsistent))]
  }

  /**
   * Every rendered record is a record of the column that is no delete
   * placeholder, and it is over the limit iff the count of records in the
   * container's language up to and including it exceeds a positive limit.
   */
  lemma {:induction false} RenderedOfPositions(prefix: seq<Row>, ctx: ColumnContext, before: map<int, TranslationFlags>, after: map<int, TranslationFlags>)
    ensures forall k :: 0 <= k < |RenderedOf(prefix, ctx, before, after)| ==>
      var item := RenderedOf(prefix, ctx, before, after)[k];
      && item.position < |prefix|
      && prefix[item.position].state != DeletePlaceholder
      && item.uid == prefix[item.position].uid
      && (item.overLimit <==> ctx.maxItems > 0 && CountMatching(prefix[..item.position + 1], ctx.containerLanguage) > ctx.maxItems)
    decreases |prefix|
  {
    if prefix != [] {
      var n := |prefix| - 1;
      RenderedOfPositions(prefix[..n], ctx, before, after);
      var init := RenderedOf(prefix[..n], ctx, before, after);
      var r := RenderedOf(prefix, ctx, before, after);
      assert prefix[..n + 1] == prefix;
      forall k | 0 <= k < |r|
        ensures r[k].position < |prefix|
        ensures prefix[r[k].position].state != DeletePlaceholder && r[k].uid == prefix[r[k].position].uid
        ensures r[k].overLimit <==> ctx.maxItems > 0 && CountMatching(prefix[..r[k].position + 1], ctx.containerLanguage) > ctx.maxItems
      {
        if k < |init| {
          assert r[k] == init[k];
          assert prefix[..n][init[k].position] == prefix[init[k].position];
          assert prefix[..n][..init[k].position + 1] == prefix[..init[k].position + 1];
        }
      }
    }
  }

  /** Records are rendered in their order in the column. */
  lemma {:induction false} RenderedOfOrdered(prefix: seq<Row>, ctx: ColumnContext, before: map<int, TranslationFlags>, after: map<int, TranslationFlags>)
    ensures forall k :: 0 <= k < |RenderedOf(prefix, ctx, before, after)| ==> RenderedOf(prefix, ctx, before, after)[k].position < |prefix|
    ensures forall k, l :: 0 <= k < l < |RenderedOf(prefix, ctx, before, after)| ==>
      RenderedOf(prefix, ctx, before, after)[k].position < RenderedOf(prefix, ctx, before, after)[l].position
    decreases |prefix|
  {
    if prefix != [] {
      var n := |prefix| - 1;
      RenderedOfOrdered(prefix[..n], ctx, before, after);
      var init := RenderedOf(prefix[..n], ctx, before, after);
      var r := RenderedOf(prefix, ctx, before, after);
    }
  }

  /** Some rendered record stands for the record at position `p` of the column. */
  predicate RendersPosition(r: seq<RenderedItem>, p: int)
  {
    exists k :: 0 <= k < |r| && r[k].position == p
  }

  /** Every record that is no delete placeholder is rendered. */
  lemma {:induction false} RenderedOfComplete(prefix: seq<Row>, ctx: ColumnContext, before: map<int, TranslationFlags>, after: map<int, TranslationFlags>)
    ensures forall p :: 0 <= p < |prefix| && prefix[p].state != DeletePlaceholder ==>
      RendersPosition(RenderedOf(prefix, ctx, before, after), p)
    decreases |prefix|
  {
    if prefix != [] {
      var n := |prefix| - 1;
      RenderedOfComplete(prefix[..n], ctx, before, after);
      var init := RenderedOf(prefix[..n], ctx, before, after);
      var r := RenderedOf(prefix, ctx, before, after);
      forall p | 0 <= p < |prefix| && prefix[p].state != DeletePlaceholder
        ensures RendersPosition(r, p)
      {
        if p < n {
          assert prefix[..n][p] == prefix[p];
          var k :| 0 <= k < |init| && init[k].position == p;
          assert r[k] == init[k];
        } else {
          assert r[|r| - 1].position == p;
        }
      }
    }
  }

  /** One more record of the column: rendered unless it is a delete placeholder. */
  lemma RenderedOfStep(items: seq<Row>, i: int, ctx: ColumnContext, before: map<int, TranslationFlags>, after: map<int, TranslationFlags>)
    requires 0 <= i < |items|
    ensures var init := RenderedOf(items[..i], ctx, before, after);
      var item := items[i];
      var seen := if ChecksBeforeItems(ctx) || (ctx.mayEdit && init != []) then after else before;
      RenderedOf(items[..i + 1], ctx, before, after) ==
        if item.state == DeletePlaceholder then init
        else init + [RenderedItem(
          i, item.uid,
          CountMatching(items[..i + 1], ctx.containerLanguage) > ctx.maxItems && ctx.maxItems > 0,
          Highlighted(seen, item, ctx.allowInconsistent),
          ctx.mayEdit && !Blocks(after, ctx.containerLanguage, ctx.allowInconsistent))]
  {
    assert items[..i + 1][..i] == items[..i];
  }

  /** A column whose count stays within its limit has no record marked over the limit. */
  lemma NoItemOverLimit(items: seq<Row>, ctx: ColumnContext, before: map<int, TranslationFlags>, after: map<int, TranslationFlags>)
    requires CountMatching(items, ctx.containerLanguage) <= ctx.maxItems
    ensures forall k :: 0 <= k < |RenderedOf(items, ctx, before, after)| ==> !RenderedOf(items, ctx, before, after)[k].overLimit
  {
    RenderedOfPositions(items, ctx, before, after);
    var r := RenderedOf(items, ctx, before, after);
    forall k | 0 <= k < |r|
      ensures !r[k].overLimit
    {
      CountMatchingPrefix(items, r[k].position + 1, ctx.containerLanguage);
    }
  }

  /** The uids of the rendered records, in rendering order: the column's edit uid list. */
  function UidsOf(rendered: seq<RenderedItem>): (uids: seq<int>)
    ensures |uids| == |rendered|
    ensures forall k :: 0 <= k < |rendered| ==> uids[k] == rendered[k].uid
  {
    if rendered == [] then []
    else
      var n := |rendered| - 1;
      assert forall k :: 0 <= k < n ==> rendered[..n][k] == rendered[k];
      UidsOf(rendered[..n]) + [rendered[n].uid]
  }

  lemma UidsOfSnoc(rendered: seq<RenderedItem>, entry: RenderedItem)
    ensures UidsOf(rendered + [entry]) == UidsOf(rendered) + [entry.uid]
  {
    assert (rendered + [entry])[..|rendered|] == rendered;
  }

  /** Whether rendering the column checks the container's language at all. */
  predicate ColumnChecks(items: seq<Row>, ctx: ColumnContext, before: map<int, TranslationFlags>, after: map<int, TranslationFlags>)
  {
    ChecksBeforeItems(ctx) || (ctx.mayEdit && RenderedOf(items, ctx, before, after) != [])
  }

  /** The map entry of `m` at `k`, or the empty sequence. */
  function EntryOr<T>(m: map<int, seq<T>>, k: int): seq<T>
  {
    if k in m then m[k] else []
  }

  /**
   * The columns rendered so far: their keys are `done`, each with the count
   * of its records in the container's language, and without records in
   * single-column mode.
   */
  ghost predicate ColumnsRendered(numberOfItems: map<int, int>, gridContent: map<int, seq<ColumnBlock>>, done: seq<int>,
                                  view: seq<Row>, container: Row, singleColumn: bool)
  {
    && (forall c :: c in numberOfItems <==> c in done)
    && (forall c :: c in gridContent <==> c in done)
    && (forall c :: c in numberOfItems ==>
          numberOfItems[c] == CountMatching(ColumnCandidates(view, c, container.uid, singleColumn), container.language))
    && (singleColumn ==> forall c, b :: c in gridContent && b in gridContent[c] ==> b.items == [])
  }

  lemma ColumnsRenderedStep(numberOfItems: map<int, int>, gridContent: map<int, seq<ColumnBlock>>, done: seq<int>,
                            view: seq<Row>, container: Row, singleColumn: bool,
                            colPos: int, counter: int, block: ColumnBlock)
    requires ColumnsRendered(numberOfItems, gridContent, done, view, container, singleColumn)
    requires counter == CountMatching(ColumnCandidates(view, colPos, container.uid, singleColumn), container.language)
    requires singleColumn ==> block.items == []
    ensures ColumnsRendered(numberOfItems[colPos := counter], gridContent[colPos := EntryOr(gridContent, colPos) + [block]],
                            done + [colPos], view, container, singleColumn)
  {
  }

  /** No column key appears twice, as in the keys of a PHP array. */
  predicate DistinctKeys(order: seq<int>)
  {
    forall i, j :: 0 <= i < j < |order| ==> order[i] != order[j]
  }

  /** What the column loop of a grid container works on. */
  datatype GridRun = GridRun(table: ColumnTable, view: seq<Row>, container: Row, singleColumn: bool,
                             mayEdit: bool, allowInconsistent: bool)

  /** The records of column `c`, ordered by `sorting`. */
  function SortedColumnOf(g: GridRun, c: int): seq<Row>
  {
    SortBy(ColumnCandidates(g.view, c, g.container.uid, g.singleColumn), BySorting)
  }

  /** What rendering column `c` depends on besides its records. */
  function ContextOf(g: GridRun, c: int): ColumnContext
  {
    ColumnContext(c, if c in g.table.entries then g.table.entries[c].maxItems else 0,
                  g.container.language, g.mayEdit, g.allowInconsistent)
  }

  /** The cache once the container's language was checked against column `c`. */
  function CheckedFor(g: GridRun, before: map<int, TranslationFlags>, c: int): map<int, TranslationFlags>
  {
    CheckedCache(before, SortedColumnOf(g, c), g.container.language, g.allowInconsistent)
  }

  /** The records of column `c` as rendered when the column starts with the cache `before`. */
  function ColumnRendering(g: GridRun, before: map<int, TranslationFlags>, c: int): seq<RenderedItem>
  {
    RenderedOf(SortedColumnOf(g, c), ContextOf(g, c), before, CheckedFor(g, before, c))
  }

  /**
   * Whether column `c` offers its own "new content" button when it starts
   * with the cache `before`: it is an assigned column the user may edit, and
   * the container's language, checked against the column's records, does
   * not block new content.
   */
  predicate ColumnOffers(g: GridRun, before: map<int, TranslationFlags>, c: int)
  {
    ChecksBeforeItems(ContextOf(g, c)) && !Blocks(CheckedFor(g, before, c), g.container.language, g.allowInconsistent)
  }

  /** What rendering column `c` appends to its grid content when it starts with the cache `before`. */
  function ColumnOutput(g: GridRun, before: map<int, TranslationFlags>, c: int): ColumnBlock
  {
    ColumnBlock(ColumnOffers(g, before, c), ColumnRendering(g, before, c))
  }

  /** Whether rendering column `c` checks the container's language at all. */
  predicate ColumnChecksFor(g: GridRun, before: map<int, TranslationFlags>, c: int)
  {
    ColumnChecks(SortedColumnOf(g, c), ContextOf(g, c), before, CheckedFor(g, before, c))
  }

  /** The cache after column `c`. */
  function CacheAfterColumn(g: GridRun, before: map<int, TranslationFlags>, c: int): map<int, TranslationFlags>
  {
    if ColumnChecksFor(g, before, c) then CheckedFor(g, before, c) else before
  }

  /** The warnings column `c` enqueues. */
  function WarningsOfColumn(g: GridRun, before: map<int, TranslationFlags>, c: int): seq<int>
  {
    if ColumnChecksFor(g, before, c) && WarnsOnCheck(before, SortedColumnOf(g, c), g.container.language, g.allowInconsistent)
    then [g.container.language] else []
  }

  /** The cache after the first `n` columns of `cols`, rendered in order from `cache`. */
  function CacheBefore(g: GridRun, cache: map<int, TranslationFlags>, cols: seq<int>, n: int): map<int, TranslationFlags>
    requires 0 <= n <= |cols|
  {
    if n == 0 then cache
    else CacheAfterColumn(g, CacheBefore(g, cache, cols, n - 1), cols[n - 1])
  }

  /** The warnings the first `n` columns of `cols` enqueue, rendered in order from `cache`. */
  function WarningsBefore(g: GridRun, cache: map<int, TranslationFlags>, cols: seq<int>, n: int): seq<int>
    requires 0 <= n <= |cols|
  {
    if n == 0 then []
    else WarningsBefore(g, cache, cols, n - 1) + WarningsOfColumn(g, CacheBefore(g, cache, cols, n - 1), cols[n - 1])
  }

  /** One more column: its content, edit uids, cache and warnings follow those of the columns before it. */
  lemma BeforeStep(g: GridRun, cache: map<int, TranslationFlags>, cols: seq<int>, i: int,
                   gridContent: map<int, seq<ColumnBlock>>, editUidList: map<int, seq<int>>, log: seq<int>, block: ColumnBlock)
    requires 0 <= i < |cols|
    requires gridContent == ContentBefore(g, cache, cols, i) && editUidList == EditUidsBefore(g, cache, cols, i)
    requires block == ColumnOutput(g, CacheBefore(g, cache, cols, i), cols[i])
    ensures gridContent[cols[i] := EntryOr(gridContent, cols[i]) + [block]] == ContentBefore(g, cache, cols, i + 1)
    ensures editUidList[cols[i] := EntryOr(editUidList, cols[i]) + UidsOf(block.items)] == EditUidsBefore(g, cache, cols, i + 1)
    ensures CacheAfterColumn(g, CacheBefore(g, cache, cols, i), cols[i]) == CacheBefore(g, cache, cols, i + 1)
    ensures (log + WarningsBefore(g, cache, cols, i)) + WarningsOfColumn(g, CacheBefore(g, cache, cols, i), cols[i])
      == log + WarningsBefore(g, cache, cols, i + 1)
  {
    ContentStep(g, cache, cols, i);
    WarningsAppend(log, WarningsBefore(g, cache, cols, i), WarningsOfColumn(g, CacheBefore(g, cache, cols, i), cols[i]));
  }

  lemma ContentStep(g: GridRun, cache: map<int, TranslationFlags>, cols: seq<int>, i: int)
    requires 0 <= i < |cols|
    ensures var content, block := ContentBefore(g, cache, cols, i), ColumnOutput(g, CacheBefore(g, cache, cols, i), cols[i]);
      content[cols[i] := EntryOr(content, cols[i]) + [block]] == ContentBefore(g, cache, cols, i + 1)
    ensures var uids, block := EditUidsBefore(g, cache, cols, i), ColumnOutput(g, CacheBefore(g, cache, cols, i), cols[i]);
      uids[cols[i] := EntryOr(uids, cols[i]) + UidsOf(block.items)] == EditUidsBefore(g, cache, cols, i + 1)
  {
    var parts, block := Renderings(g, cache, cols, i), ColumnOutput(g, CacheBefore(g, cache, cols, i), cols[i]);
    assert Renderings(g, cache, cols, i + 1) == parts + [block];
    WrappedSnoc(parts, block);
    GatheredSnoc(cols, Wrapped(parts), [block]);
    UidListsSnoc(parts, block);
    GatheredSnoc(cols, UidLists(parts), UidsOf(block.items));
  }

  lemma OrderPrefix(order: seq<int>, i: int)
    requires 0 <= i <= |order|
    ensures i < |order| ==> order[..i + 1] == order[..i] + [order[i]]
    ensures i == |order| ==> order[..i] == order
  {
  }

  /** Before the first column: nothing rendered, the cache and the warnings as they were. */
  lemma NothingRendered(g: GridRun, cache: map<int, TranslationFlags>, log: seq<int>)
    ensures ColumnsRendered(map[], map[], g.table.order[..0], g.view, g.container, g.singleColumn)
    ensures log + WarningsBefore(g, cache, g.table.order, 0) == log
    ensures ContentBefore(g, cache, g.table.order, 0) == map[] && CacheBefore(g, cache, g.table.order, 0) == cache
  {
    assert log + [] == log;
  }

  lemma WarningsAppend(log: seq<int>, done: seq<int>, added: seq<int>)
    ensures (log + done) + added == log + (done + added)
  {
  }

  /**
   * Column `c` holds one block, its "new content" offer and its records as
   * rendered from the cache `before`, and the records' uids.
   */
  ghost predicate ColumnAt(gridContent: map<int, seq<ColumnBlock>>, editUidList: map<int, seq<int>>, c: int,
                           g: GridRun, before: map<int, TranslationFlags>)
  {
    && c in gridContent && c in editUidList
    && gridContent[c] == [ColumnOutput(g, before, c)]
    && editUidList[c] == UidsOf(ColumnRendering(g, before, c))
  }

  /**
   * The map a column loop builds by appending `parts[k]` to the entry of
   * `cols[k]`, for each `k` in order.
   */
  function Gathered<T>(cols: seq<int>, parts: seq<seq<T>>): map<int, seq<T>>
    requires |parts| <= |cols|
    decreases |parts|
  {
    if parts == [] then map[]
    else
      var n := |parts| - 1;
      var m := Gathered(cols, parts[..n]);
      m[cols[n] := EntryOr(m, cols[n]) + parts[n]]
  }

  lemma GatheredSnoc<T>(cols: seq<int>, parts: seq<seq<T>>, part: seq<T>)
    requires |parts| < |cols|
    ensures Gathered(cols, parts + [part])
         == Gathered(cols, parts)[cols[|parts|] := EntryOr(Gathered(cols, parts), cols[|parts|]) + part]
  {
    assert (parts + [part])[..|parts|] == parts;
  }

  /** A key not among the first `|parts|` of `cols` is not gathered. */
  lemma {:induction false} GatheredAbsent<T>(cols: seq<int>, parts: seq<seq<T>>, k: int)
    requires |parts| <= k < |cols| && DistinctKeys(cols)
    ensures cols[k] !in Gathered(cols, parts)
    decreases |parts|
  {
    if parts != [] {
      GatheredAbsent(cols, parts[..|parts| - 1], k);
    }
  }

  /** With distinct keys, the entry of `cols[k]` is exactly `parts[k]`. */
  lemma {:induction false} GatheredAt<T>(cols: seq<int>, parts: seq<seq<T>>, k: int)
    requires 0 <= k < |parts| <= |cols| && DistinctKeys(cols)
    ensures cols[k] in Gathered(cols, parts) && Gathered(cols, parts)[cols[k]] == parts[k]
    decreases |parts|
  {
    var n := |parts| - 1;
    if k < n {
      GatheredAt(cols, parts[..n], k);
    } else {
      GatheredAbsent(cols, parts[..n], k);
      assert [] + parts[n] == parts[n];
    }
  }

  /** What the first `n` columns of `cols` append, rendered in order from `cache`. */
  function Renderings(g: GridRun, cache: map<int, TranslationFlags>, cols: seq<int>, n: int): (r: seq<ColumnBlock>)
    requires 0 <= n <= |cols|
    ensures |r| == n
  {
    if n == 0 then []
    else Renderings(g, cache, cols, n - 1) + [ColumnOutput(g, CacheBefore(g, cache, cols, n - 1), cols[n - 1])]
  }

  /** Column `k` is rendered with the cache the columns before it left. */
  lemma {:induction false} RenderingsAt(g: GridRun, cache: map<int, TranslationFlags>, cols: seq<int>, n: int, k: int)
    requires 0 <= k < n <= |cols|
    ensures Renderings(g, cache, cols, n)[k] == ColumnOutput(g, CacheBefore(g, cache, cols, k), cols[k])
    decreases n
  {
    if k < n - 1 {
      RenderingsAt(g, cache, cols, n - 1, k);
    }
  }

  /** Each block as the one-block string a column appends. */
  function Wrapped(parts: seq<ColumnBlock>): seq<seq<ColumnBlock>>
  {
    seq(|parts|, k requires 0 <= k < |parts| => [parts[k]])
  }

  lemma WrappedSnoc(parts: seq<ColumnBlock>, part: ColumnBlock)
    ensures Wrapped(parts + [part]) == Wrapped(parts) + [[part]]
  {
  }

  /** The uid list of each rendered column. */
  function UidLists(parts: seq<ColumnBlock>): seq<seq<int>>
  {
    seq(|parts|, k requires 0 <= k < |parts| => UidsOf(parts[k].items))
  }

  lemma UidListsSnoc(parts: seq<ColumnBlock>, part: ColumnBlock)
    ensures UidLists(parts + [part]) == UidLists(parts) + [UidsOf(part.items)]
  {
  }

  /** The column contents after the first `n` columns of `cols`, rendered in order from `cache`. */
  function ContentBefore(g: GridRun, cache: map<int, TranslationFlags>, cols: seq<int>, n: int): map<int, seq<ColumnBlock>>
    requires 0 <= n <= |cols|
  {
    Gathered(cols, Wrapped(Renderings(g, cache, cols, n)))
  }

  /** The edit uid lists after the first `n` columns of `cols`. */
  function EditUidsBefore(g: GridRun, cache: map<int, TranslationFlags>, cols: seq<int>, n: int): map<int, seq<int>>
    requires 0 <= n <= |cols|
  {
    Gathered(cols, UidLists(Renderings(g, cache, cols, n)))
  }

  /** A column not among the first `n` of `cols` holds nothing yet. */
  lemma ContentBeforeAbsent(g: GridRun, cache: map<int, TranslationFlags>, cols: seq<int>, n: int, k: int)
    requires 0 <= n <= k < |cols| && DistinctKeys(cols)
    ensures cols[k] !in ContentBefore(g, cache, cols, n) && cols[k] !in EditUidsBefore(g, cache, cols, n)
  {
    GatheredAbsent(cols, Wrapped(Renderings(g, cache, cols, n)), k);
    GatheredAbsent(cols, UidLists(Renderings(g, cache, cols, n)), k);
  }

  /**
   * With distinct column keys, each of the first `n` columns holds exactly
   * its own block, its "new content" offer and its records as rendered with
   * the cache the columns before it left, and their uids as its edit uid
   * list.
   */
  lemma ContentBeforeAt(g: GridRun, cache: map<int, TranslationFlags>, cols: seq<int>, n: int, k: int)
    requires 0 <= k < n <= |cols| && DistinctKeys(cols)
    ensures ColumnAt(ContentBefore(g, cache, cols, n), EditUidsBefore(g, cache, cols, n), cols[k], g, CacheBefore(g, cache, cols, k))
  {
    var parts := Renderings(g, cache, cols, n);
    RenderingsAt(g, cache, cols, n, k);
    GatheredAt(cols, Wrapped(parts), k);
    GatheredAt(cols, UidLists(parts), k);
  }

  /**
   * In single-column mode column 0 holds no records, only its "new content"
   * button, offered when the user may edit and the container's language does
   * not block new content.
   */
  lemma SingleColumnContent(g: GridRun, cache: map<int, TranslationFlags>)
    requires g.singleColumn && g.table.order == [0]
    ensures ContentBefore(g, cache, g.table.order, 1)
         == map[0 := [ColumnBlock(g.mayEdit && !Blocks(cache, g.container.language, g.allowInconsistent), [])]]
  {
    assert SortedColumnOf(g, 0) == [];
    EmptyCheckReadsOnly(cache, g.container.language, g.allowInconsistent);
    var block := ColumnOutput(g, cache, 0);
    assert block == ColumnBlock(g.mayEdit && !Blocks(cache, g.container.language, g.allowInconsistent), []);
    assert Renderings(g, cache, [0], 1) == [block];
    assert Wrapped([block]) == [[block]];
    assert Gathered([0], [[block]]) == map[0 := [block]] by {
      assert [[block]][..0] == [];
    }
  }

  lemma OnlyColumnZero(m: map<int, int>)
    requires forall c :: c in m <==> c == 0
    ensures m.Keys == {0}
  {
    assert forall c :: c in m.Keys <==> c in {0};
  }

  /**
   * The container's body: the layout table, each cell showing the content of
   * its column key, or the single cell of column 0.
   */
  datatype GridOutput = LayoutTable(cells: seq<GridCell>, content: map<int, seq<ColumnBlock>>) | SingleCell(column: seq<ColumnBlock>)

  /** What cell `i` of a layout table shows below its header. */
  function CellContent(cells: seq<GridCell>, content: map<int, seq<ColumnBlock>>, i: int): seq<ColumnBlock>
    requires 0 <= i < |cells|
  {
    EntryOr(content, cells[i].columnKey)
  }

  /**
   * The column table of a container: every column of the layout, or column 0
   * alone when the layout has no rows.
   */
  function ContainerTable(layout: Layout): ColumnTable
  {
    if layout.rows == [] then SingleColumnTable() else TableOf(Flatten(layout.rows), layout)
  }

  /**
   * Every cell of a layout table shows a column the column loop rendered: the
   * "new content" offer and the records of the cell's column key, rendered
   * with the cache the columns before it left.
   */
  lemma LayoutCellShowsItsColumn(g: GridRun, cache: map<int, TranslationFlags>, layout: Layout, numberOfItems: map<int, int>, i: int)
    requires layout.rows != [] && g.table == ContainerTable(layout)
    requires 0 <= i < |Cells(SelectedColumns(layout.rows, layout.rowCount), layout, numberOfItems).cells|
    ensures var cells, order := Cells(SelectedColumns(layout.rows, layout.rowCount), layout, numberOfItems).cells, g.table.order;
      exists k :: 0 <= k < |order| && order[k] == cells[i].columnKey
        && CellContent(cells, ContentBefore(g, cache, order, |order|), i) == [ColumnOutput(g, CacheBefore(g, cache, order, k), order[k])]
  {
    var cols, flat, order := SelectedColumns(layout.rows, layout.rowCount), Flatten(layout.rows), g.table.order;
    CellsColumnKeys(cols, layout, numberOfItems);
    SelectedColumnsDeclared(layout.rows, layout.rowCount, cols[i]);
    var key := ColumnKey(cols[i].colPos);
    var j :| 0 <= j < |flat| && flat[j] == cols[i];
    TableOfKeys(flat, layout, key);
    TableOfValid(flat, layout);
    var k :| 0 <= k < |order| && order[k] == key;
    ContentBeforeAt(g, cache, order, |order|, k);
  }

  /**
   * The column table of a container: every column of the layout, or column 0
   * alone (single-column mode) when the layout has no rows.
   */
  method ColPosValuesOf(layout: Layout) returns (singleColumn: bool, colPosValues: ColumnTable)
    ensures colPosValues == ContainerTable(layout)
    ensures singleColumn <==> layout.rows == []
    ensures singleColumn ==> colPosValues.order == [0]
    ensures DistinctKeys(colPosValues.order)
    ensures !singleColumn ==> forall c :: c in colPosValues.order <==>
      exists i :: 0 <= i < |Flatten(layout.rows)| && ColumnKey(Flatten(layout.rows)[i].colPos) == c
  {
    if layout.rows != [] {
      singleColumn := false;
      colPosValues := SetMultipleColPosValues(layout);
      TableOfValid(Flatten(layout.rows), layout);
      forall c {
        TableOfKeys(Flatten(layout.rows), layout, c);
      }
    } else {
      singleColumn := true;
      colPosValues := SingleColumnTable();
    }
  }

  /** The scan of a column's records: is any of them standalone content, is any a translation. */
  method ScanTranslations(contentElements: seq<Row>) returns (standalone: bool, translations: bool)
    ensures TranslationFlags(standalone, translations) == ScanFlags(contentElements)
  {
    standalone := false;
    translations := false;
    for i := 0 to |contentElements|
      invariant TranslationFlags(standalone, translations) == ScanFlags(contentElements[..i])
    {
      assert contentElements[..i + 1][..i] == contentElements[..i];
      if contentElements[i].l18nParent == 0 {
        standalone := true;
      }
      if contentElements[i].l18nParent > 0 {
        translations := true;
      }
    }
    assert contentElements[..|contentElements|] == contentElements;
  }

  class DrawItem {
    /** Per language: what the first scan that found anything found. */
    var languageHasTranslationsCache: map<int, TranslationFlags>
    /** The languages for which a stale-translation warning was enqueued, in order. */
    var warnings: seq<int>

    /**
     * Every cache entry has a flag set, every warned language is cached with
     * both flags set, and no language is warned about twice.
     */
    ghost predicate Valid()
      reads this
    {
      && (forall l :: l in languageHasTranslationsCache ==> Populated(languageHasTranslationsCache[l]))
      && (forall i :: 0 <= i < |warnings| ==>
            && warnings[i] in languageHasTranslationsCache
            && languageHasTranslationsCache[warnings[i]].standalone
            && languageHasTranslationsCache[warnings[i]].translations)
      && (forall i, j :: 0 <= i < j < |warnings| ==> warnings[i] != warnings[j])
    }

    constructor()
      ensures Valid()
      ensures languageHasTranslationsCache == map[] && warnings == []
    {
      languageHasTranslationsCache := map[];
      warnings := [];
    }

    /**
     * Whether translated content exists in `language`, which blocks creating
     * new content there; warns once when standalone and translated content are
     * mixed.
     */
    method CheckIfTranslationsExistInLanguage(contentElements: seq<Row>, language: int, allowInconsistent: bool)
      returns (blocked: bool)
      requires Valid()
      modifies this
      ensures Valid()
      ensures languageHasTranslationsCache == CheckedCache(old(languageHasTranslationsCache), contentElements, language, allowInconsistent)
      ensures warnings == old(warnings) +
        (if WarnsOnCheck(old(languageHasTranslationsCache), contentElements, language, allowInconsistent) then [language] else [])
      ensures blocked == Blocks(languageHasTranslationsCache, language, allowInconsistent)
    {
      if language == 0 || language == -1 || allowInconsistent {
        return false;
      }
      if language !in languageHasTranslationsCache {
        var standalone, translations := ScanTranslations(contentElements);
        if standalone || translations {
          languageHasTranslationsCache := languageHasTranslationsCache[language := TranslationFlags(standalone, translations)];
        }
        if standalone && translations {
          warnings := warnings + [language];
        }
      }
      blocked := language in languageHasTranslationsCache && languageHasTranslationsCache[language].translations;
    }

    /**
     * The state while a column is rendered: before the container's language
     * was checked the cache and log are as the column found them (`before`,
     * `log`); afterwards they are as one check leaves them.
     */
    ghost predicate ColumnState(checked: bool, items: seq<Row>, ctx: ColumnContext, before: map<int, TranslationFlags>, log: seq<int>)
      reads this
    {
      if checked then
        && languageHasTranslationsCache == CheckedCache(before, items, ctx.containerLanguage, ctx.allowInconsistent)
        && warnings == log +
             (if WarnsOnCheck(before, items, ctx.containerLanguage, ctx.allowInconsistent) then [ctx.containerLanguage] else [])
      else languageHasTranslationsCache == before && warnings == log
    }

    /**
     * One grid column: the records in their order, with the running count of
     * records in the container's language deciding which are over the limit.
     */
    method RenderSingleGridColumn(items: seq<Row>, ctx: ColumnContext)
      returns (rendered: seq<RenderedItem>, editUids: seq<int>, columnOffersNewContent: bool)
      requires Valid()
      modifies this
      ensures Valid()
      ensures var before := old(languageHasTranslationsCache);
        var after := CheckedCache(before, items, ctx.containerLanguage, ctx.allowInconsistent);
        && rendered == RenderedOf(items, ctx, before, after)
        && columnOffersNewContent == (ChecksBeforeItems(ctx) && !Blocks(after, ctx.containerLanguage, ctx.allowInconsistent))
        && languageHasTranslationsCache == (if ColumnChecks(items, ctx, before, after) then after else before)
        && warnings == old(warnings) +
             (if ColumnChecks(items, ctx, before, after) && WarnsOnCheck(before, items, ctx.containerLanguage, ctx.allowInconsistent)
              then [ctx.containerLanguage] else [])
      ensures editUids == UidsOf(rendered)
    {
      ghost var before := languageHasTranslationsCache;
      ghost var log := warnings;
      columnOffersNewContent := false;
      if ctx.colPos < Unassigned && ctx.mayEdit {
        var blocked := CheckIfTranslationsExistInLanguage(items, ctx.containerLanguage, ctx.allowInconsistent);
        columnOffersNewContent := !blocked;
      }
      assert ColumnState(ChecksBeforeItems(ctx), items, ctx, before, log);
      rendered, editUids := RenderColumnItems(items, ctx, before, log);
    }

    /** The record loop of a column, after the column's own check. */
    method RenderColumnItems(items: seq<Row>, ctx: ColumnContext, ghost before: map<int, TranslationFlags>, ghost log: seq<int>)
      returns (rendered: seq<RenderedItem>, editUids: seq<int>)
      requires Valid()
      requires ColumnState(ChecksBeforeItems(ctx), items, ctx, before, log)
      modifies this
      ensures Valid()
      ensures rendered == RenderedOf(items, ctx, before, CheckedCache(before, items, ctx.containerLanguage, ctx.allowInconsistent))
      ensures ColumnState(ColumnChecks(items, ctx, before, CheckedCache(before, items, ctx.containerLanguage, ctx.allowInconsistent)), items, ctx, before, log)
      ensures editUids == UidsOf(rendered)
    {
      ghost var after := CheckedCache(before, items, ctx.containerLanguage, ctx.allowInconsistent);
      rendered := [];
      editUids := [];
      var counter := 0;
      for i := 0 to |items|
        invariant Valid()
        invariant counter == CountMatching(items[..i], ctx.containerLanguage)
        invariant rendered == RenderedOf(items[..i], ctx, before, after)
        invariant editUids == UidsOf(rendered)
        invariant ColumnState(ChecksBeforeItems(ctx) || (ctx.mayEdit && rendered != []), items, ctx, before, log)
      {
        var item := items[i];
        CountMatchingStep(items, i, ctx.containerLanguage);
        if LanguageMatches(ctx.containerLanguage, item.language) {
          counter := counter + 1;
        }
        if item.state != DeletePlaceholder {
          var entry := RenderColumnItem(items, i, ctx, counter, rendered, before, log);
          UidsOfSnoc(rendered, entry);
          rendered := rendered + [entry];
          editUids := editUids + [item.uid];
        } else {
          RenderedOfStep(items, i, ctx, before, after);
        }
      }
      assert items[..|items|] == items;
    }

    /** The rendering of one record that is no delete placeholder, with the checks it makes. */
    method RenderColumnItem(items: seq<Row>, i: nat, ctx: ColumnContext, counter: nat, rendered: seq<RenderedItem>,
                            ghost before: map<int, TranslationFlags>, ghost log: seq<int>)
      returns (entry: RenderedItem)
      requires Valid()
      requires i < |items| && items[i].state != DeletePlaceholder
      requires counter == CountMatching(items[..i + 1], ctx.containerLanguage)
      requires rendered == RenderedOf(items[..i], ctx, before, CheckedCache(before, items, ctx.containerLanguage, ctx.allowInconsistent))
      requires ColumnState(ChecksBeforeItems(ctx) || (ctx.mayEdit && rendered != []), items, ctx, before, log)
      modifies this
      ensures Valid()
      ensures RenderedOf(items[..i + 1], ctx, before, CheckedCache(before, items, ctx.containerLanguage, ctx.allowInconsistent))
        == rendered + [entry]
      ensures entry.uid == items[i].uid
      ensures ColumnState(ChecksBeforeItems(ctx) || ctx.mayEdit, items, ctx, before, log)
    {
      ghost var after := CheckedCache(before, items, ctx.containerLanguage, ctx.allowInconsistent);
      RenderedOfStep(items, i, ctx, before, after);
      ghost var checked := ChecksBeforeItems(ctx) || (ctx.mayEdit && rendered != []);
      var highlighted, offersNewContent := RenderItemChecks(items, items[i], ctx, checked, before, log);
      entry := RenderedItem(i, items[i].uid, counter > ctx.maxItems && ctx.maxItems > 0, highlighted, offersNewContent);
    }

    /** The two checks made for one rendered record: its highlight, then the "new content" button after it. */
    method RenderItemChecks(items: seq<Row>, item: Row, ctx: ColumnContext,
                            ghost checked: bool, ghost before: map<int, TranslationFlags>, ghost log: seq<int>)
      returns (highlighted: bool, offersNewContent: bool)
      requires Valid()
      requires ColumnState(checked, items, ctx, before, log)
      modifies this
      ensures Valid()
      ensures ColumnState(checked || ctx.mayEdit, items, ctx, before, log)
      ensures var after := CheckedCache(before, items, ctx.containerLanguage, ctx.allowInconsistent);
        && highlighted == Highlighted(if checked then after else before, item, ctx.allowInconsistent)
        && offersNewContent == (ctx.mayEdit && !Blocks(after, ctx.containerLanguage, ctx.allowInconsistent))
    {
      EmptyCheckReadsOnly(languageHasTranslationsCache, item.language, ctx.allowInconsistent);
      var translated := CheckIfTranslationsExistInLanguage([], item.language, ctx.allowInconsistent);
      highlighted := translated && item.l18nParent == 0;
      offersNewContent := false;
      if ctx.mayEdit {
        CheckSettles(before, items, ctx.containerLanguage, ctx.allowInconsistent);
        var blocked := CheckIfTranslationsExistInLanguage(items, ctx.containerLanguage, ctx.allowInconsistent);
        offersNewContent := !blocked;
      }
    }

    /**
     * All columns of a grid container: the versioning pass over the collected
     * records, then per column its records, their count in the container's
     * language and their rendering.
     */
    method RenderGridColumns(
      table: ColumnTable, collected: seq<Row>, container: Row, singleColumn: bool,
      workspace: int, overlay: int -> Row, placeholder: int -> Option<Placement>,
      mayEdit: bool, allowInconsistent: bool)
      returns (numberOfItems: map<int, int>, gridContent: map<int, seq<ColumnBlock>>, editUidList: map<int, seq<int>>)
      requires Valid()
      modifies this
      ensures Valid()
      ensures forall c :: c in numberOfItems <==> c in table.order
      ensures forall c :: c in gridContent <==> c in table.order
      ensures forall c :: c in numberOfItems ==>
        (numberOfItems[c] ==
         CountMatching(ColumnCandidates(WorkspaceView(collected, workspace, overlay, placeholder), c, container.uid, singleColumn), container.language))
      ensures singleColumn ==> forall c, b :: c in gridContent && b in gridContent[c] ==> b.items == []
      ensures var g := GridRun(table, WorkspaceView(collected, workspace, overlay, placeholder), container, singleColumn, mayEdit, allowInconsistent);
        && gridContent == ContentBefore(g, old(languageHasTranslationsCache), table.order, |table.order|)
        && editUidList == EditUidsBefore(g, old(languageHasTranslationsCache), table.order, |table.order|)
        && languageHasTranslationsCache == CacheBefore(g, old(languageHasTranslationsCache), table.order, |table.order|)
        && warnings == old(warnings) + WarningsBefore(g, old(languageHasTranslationsCache), table.order, |table.order|)
    {
      var view := FilterCollectedItems(collected, workspace, overlay, placeholder);
      numberOfItems, gridContent, editUidList := RenderColumns(table, view, container, singleColumn, mayEdit, allowInconsistent);
    }

    /**
     * The first `i` columns of the table are rendered: their counts and
     * contents, the cache they left and the warnings they enqueued.
     */
    ghost predicate ColumnsDone(numberOfItems: map<int, int>, gridContent: map<int, seq<ColumnBlock>>, editUidList: map<int, seq<int>>,
                                g: GridRun, cache0: map<int, TranslationFlags>, log0: seq<int>, i: int)
      requires 0 <= i <= |g.table.order|
      reads this
    {
      && ColumnsRendered(numberOfItems, gridContent, g.table.order[..i], g.view, g.container, g.singleColumn)
      && gridContent == ContentBefore(g, cache0, g.table.order, i)
      && editUidList == EditUidsBefore(g, cache0, g.table.order, i)
      && languageHasTranslationsCache == CacheBefore(g, cache0, g.table.order, i)
      && warnings == log0 + WarningsBefore(g, cache0, g.table.order, i)
    }

    /** The loop over the columns of the table, on the records that stayed after the versioning pass. */
    method RenderColumns(table: ColumnTable, view: seq<Row>, container: Row, singleColumn: bool, mayEdit: bool, allowInconsistent: bool)
      returns (numberOfItems: map<int, int>, gridContent: map<int, seq<ColumnBlock>>, editUidList: map<int, seq<int>>)
      requires Valid()
      modifies this
      ensures Valid()
      ensures ColumnsRendered(numberOfItems, gridContent, table.order, view, container, singleColumn)
      ensures var g := GridRun(table, view, container, singleColumn, mayEdit, allowInconsistent);
        && gridContent == ContentBefore(g, old(languageHasTranslationsCache), table.order, |table.order|)
        && editUidList == EditUidsBefore(g, old(languageHasTranslationsCache), table.order, |table.order|)
        && languageHasTranslationsCache == CacheBefore(g, old(languageHasTranslationsCache), table.order, |table.order|)
        && warnings == old(warnings) + WarningsBefore(g, old(languageHasTranslationsCache), table.order, |table.order|)
    {
      var g := GridRun(table, view, container, singleColumn, mayEdit, allowInconsistent);
      ghost var cache0 := languageHasTranslationsCache;
      ghost var log0 := warnings;
      numberOfItems := map[];
      gridContent := map[];
      editUidList := map[];
      NothingRendered(g, cache0, log0);
      for i := 0 to |table.order|
        invariant Valid()
        invariant ColumnsDone(numberOfItems, gridContent, editUidList, g, cache0, log0, i)
      {
        numberOfItems, gridContent, editUidList := RenderNextColumn(numberOfItems, gridContent, editUidList, g, cache0, log0, i);
      }
      OrderPrefix(table.order, |table.order|);
    }

    /** One pass of the column loop: the column at position `i` of the table. */
    method RenderNextColumn(numberOfItems0: map<int, int>, gridContent0: map<int, seq<ColumnBlock>>, editUidList0: map<int, seq<int>>,
                            g: GridRun, ghost cache0: map<int, TranslationFlags>, ghost log0: seq<int>, i: int)
      returns (numberOfItems: map<int, int>, gridContent: map<int, seq<ColumnBlock>>, editUidList: map<int, seq<int>>)
      requires Valid()
      requires 0 <= i < |g.table.order|
      requires ColumnsDone(numberOfItems0, gridContent0, editUidList0, g, cache0, log0, i)
      modifies this
      ensures Valid()
      ensures ColumnsDone(numberOfItems, gridContent, editUidList, g, cache0, log0, i + 1)
    {
      var colPos := g.table.order[i];
      OrderPrefix(g.table.order, i);
      var counter, offersNewContent, rendered, editUids :=
        RenderGridColumn(g.table, g.view, colPos, g.container, g.singleColumn, g.mayEdit, g.allowInconsistent);
      var block := ColumnBlock(offersNewContent, rendered);
      BeforeStep(g, cache0, g.table.order, i, gridContent0, editUidList0, log0, block);
      ColumnsRenderedStep(numberOfItems0, gridContent0, g.table.order[..i], g.view, g.container, g.singleColumn, colPos, counter, block);
      numberOfItems := numberOfItems0[colPos := counter];
      gridContent := gridContent0[colPos := EntryOr(gridContent0, colPos) + [block]];
      editUidList := editUidList0[colPos := EntryOr(editUidList0, colPos) + editUids];
    }

    /**
     * One column of a grid container: its records in order, their count in
     * the container's language, the column's own "new content" offer and the
     * records' rendering.
     */
    method RenderGridColumn(table: ColumnTable, view: seq<Row>, colPos: int, container: Row, singleColumn: bool,
                            mayEdit: bool, allowInconsistent: bool)
      returns (counter: nat, offersNewContent: bool, rendered: seq<RenderedItem>, editUids: seq<int>)
      requires Valid()
      modifies this
      ensures Valid()
      ensures counter == CountMatching(ColumnCandidates(view, colPos, container.uid, singleColumn), container.language)
      ensures singleColumn ==> rendered == []
      ensures var g := GridRun(table, view, container, singleColumn, mayEdit, allowInconsistent);
        && offersNewContent == ColumnOffers(g, old(languageHasTranslationsCache), colPos)
        && rendered == ColumnRendering(g, old(languageHasTranslationsCache), colPos)
        && editUids == UidsOf(rendered)
        && languageHasTranslationsCache == CacheAfterColumn(g, old(languageHasTranslationsCache), colPos)
        && warnings == old(warnings) + WarningsOfColumn(g, old(languageHasTranslationsCache), colPos)
    {
      var maxItems := if colPos in table.entries then table.entries[colPos].maxItems else 0;
      var items;
      items, counter := AssignColumn(view, colPos, container, singleColumn);
      CountMatchingPermutation(items, ColumnCandidates(view, colPos, container.uid, singleColumn), container.language);
      var ctx := ColumnContext(colPos, maxItems, container.language, mayEdit, allowInconsistent);
      rendered, editUids, offersNewContent := RenderSingleGridColumn(items, ctx);
    }

    /**
     * A grid container: the column table of its layout, or the single column
     * 0 when the layout has no rows; then its columns; then the layout table
     * when a layout with a configuration is selected.
     */
    method RenderCTypeGridelements(
      layout: Layout, layoutSelected: bool, collected: seq<Row>, container: Row,
      workspace: int, overlay: int -> Row, placeholder: int -> Option<Placement>,
      mayEdit: bool, allowInconsistent: bool)
      returns (singleColumn: bool, numberOfItems: map<int, int>, output: GridOutput)
      requires Valid()
      modifies this
      ensures Valid()
      ensures singleColumn <==> layout.rows == []
      ensures singleColumn ==> numberOfItems == map[0 := 0]
      ensures !singleColumn ==> forall c :: c in numberOfItems <==> exists i :: 0 <= i < |Flatten(layout.rows)| && ColumnKey(Flatten(layout.rows)[i].colPos) == c
      ensures !singleColumn ==> forall c :: c in numberOfItems ==>
        (numberOfItems[c] ==
         CountMatching(ColumnItems(WorkspaceView(collected, workspace, overlay, placeholder), c, container.uid), container.language))
      ensures !layoutSelected && singleColumn ==>
        output == SingleCell([ColumnBlock(mayEdit && !Blocks(old(languageHasTranslationsCache), container.language, allowInconsistent), [])])
      ensures var g := GridRun(ContainerTable(layout), WorkspaceView(collected, workspace, overlay, placeholder), container,
                               singleColumn, mayEdit, allowInconsistent);
        var content := ContentBefore(g, old(languageHasTranslationsCache), g.table.order, |g.table.order|);
        && (layoutSelected ==> output == LayoutTable(Cells(SelectedColumns(layout.rows, layout.rowCount), layout, numberOfItems).cells, content))
        && (!layoutSelected ==> output == SingleCell(EntryOr(content, 0)))
        && languageHasTranslationsCache == CacheBefore(g, old(languageHasTranslationsCache), g.table.order, |g.table.order|)
        && warnings == old(warnings) + WarningsBefore(g, old(languageHasTranslationsCache), g.table.order, |g.table.order|)
    {
      var colPosValues;
      singleColumn, colPosValues := ColPosValuesOf(layout);
      var gridContent: map<int, seq<ColumnBlock>> := map[];
      numberOfItems := map[];
      ghost var g := GridRun(colPosValues, WorkspaceView(collected, workspace, overlay, placeholder), container,
                             singleColumn, mayEdit, allowInconsistent);
      NothingRendered(g, languageHasTranslationsCache, warnings);
      if singleColumn {
        SingleColumnContent(g, languageHasTranslationsCache);
      }
      if colPosValues.order != [] {
        var editUidList;
        numberOfItems, gridContent, editUidList := RenderGridColumns(
          colPosValues, collected, container, singleColumn, workspace, overlay, placeholder, mayEdit, allowInconsistent);
      }
      assert forall c :: c in numberOfItems <==> c in colPosValues.order;
      if singleColumn {
        OnlyColumnZero(numberOfItems);
      }
      if layoutSelected {
        var cells := RenderGridLayoutTable(layout, numberOfItems);
        output := LayoutTable(cells, gridContent);
      } else {
        output := SingleCell(EntryOr(gridContent, 0));
      }
    }
  }
}
