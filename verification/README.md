# Gridelements page-module hook, modelled in Dafny

The TYPO3 extension gridelements draws grid containers and shortcut records in
the backend page module through the hook class `DrawItem`. This project
models the decisions that class makes and proves what they guarantee:

- **Column table** (`ColumnTable`, `setMultipleColPosValues`). The column
  table of a container's layout is modelled as a PHP ordered map: a key
  sequence plus an entry map. A later column with the same key overwrites
  the earlier entry in place. Every column without a column position
  shares the key 32768 and its fixed "not assigned" entry.
- **Versioning pass** (`Workspace`, first half of `renderGridColumns`).
  - In a workspace, every collected record is replaced by its workspace
    version. A move placeholder, or a version that is a move pointer, takes
    the position fields of its move placeholder. Records whose uid was moved
    away are then dropped, unless they are the placeholder.
  - Outside a workspace, a record stays only while its live version has a
    state of 0 or below.
- **Column assignment** (`Assignment`, second half of `renderGridColumns`).
  Each column gets the records that name it and the container. They are
  counted by the container's language and ordered by `sorting` with
  `usort`. The model keeps ties in collection order, as the stable `usort`
  of PHP 8 does.
- **Translation check and column rendering** (`GridRendering`, class
  `DrawItem`).
  - The object keeps a per-language cache. A warning log stands for the
    flash-message queue.
  - `checkIfTranslationsExistInLanguage` scans a language once, caches the
    result only when the scan found something, and warns once about mixed
    content.
  - `renderSingleGridColumn` keeps a running count that decides which
    records are over the column's limit, and builds the column's edit uid
    list. Before the records it checks the container's language when the
    user may edit the column. Each rendered record then reads the check for
    its own language (the header highlight) and, when the user may edit,
    checks the container's language again (the "new content" offer).
  - The column loop renders the columns in table order. Each column starts
    with the cache and log the columns before it left, and appends one
    block to its content: its own "new content" button, offered or not,
    then its records.
- **Grid cells** (`Permissions`, `renderGridLayoutTable`). Each cell has
  allow and deny sets for content types, list types and grid types, plus
  its item-limit flags and the status class of its counter.
  - The list and grid variables of the PHP code are not reset between
    cells, so the model threads them from one cell to the next.
  - The marker content types "list" and "gridelements_pi1" are added after
    the cancellation of allowed against disallowed types. A cell can
    therefore allow and disallow "list" at once; a lemma exhibits this.
- **Shortcuts** (`Shortcut`, `renderCTypeShortcut` and its two
  collectors). A comma-separated `records` field is tokenized and every
  token is classified. Page tokens select rows with the page query, ordered
  by the position of their page in the page list, then column, then
  sorting. Record tokens fetch
  one record, never the referencing record itself. The collected records are
  rendered as references.
- **PHP string built-ins** (`PhpStrings`): `explode`, `trim`, `strpos` as a
  containment test, `str_replace` with an empty replacement, and the
  `(int)` cast of a string.

Some dependencies are parameters:

- the database rows (the collected records, `tt_content` for the page query,
  and the single-record lookup)
- the backend utilities (the workspace overlay, the move-placeholder lookup,
  localization, the page tree list)
- the editing permission of the user and the page's
  `allowInconsistentLanguageHandling` setting

## Model

| member | source | states |
|---|---|---|
| Records.CountMatching | Classes/Hooks/DrawItem.php:403-408 | The count is at most the number of records. It is zero exactly when no record has the container's language, or the default language in an "all languages" container. |
| Records.CountMatchingConcat | Classes/Hooks/DrawItem.php:644-650 | Counting two lists one after the other adds their counts. |
| Records.CountMatchingPermutation | Classes/Hooks/DrawItem.php:398-420 | The count does not depend on the order of the records, so counting before `usort` gives the count of the sorted column. |
| Records.CountMatchingPrefix | Classes/Hooks/DrawItem.php:643-661 | The running count at any record never exceeds the column's total count. |
| Sorting.SortByPermutation | Classes/Hooks/DrawItem.php:413-418 | Sorting keeps exactly the records it was given (same multiset). |
| Sorting.SortBySorted | Classes/Hooks/DrawItem.php:413-418 | The sorted list is ordered by the key. |
| Sorting.SortByStable | Classes/Hooks/DrawItem.php:413-418 | Records with equal keys keep their input order. |
| ColumnTable.SetMultipleColPosValues | Classes/Hooks/DrawItem.php:255-280 | The nested loop builds the table of all columns of all rows, in declaration order. |
| ColumnTable.SetRowColPosValues | Classes/Hooks/DrawItem.php:259-277 | The inner loop records one row's columns after those of the earlier rows. |
| ColumnTable.TableOfValid | Classes/Hooks/DrawItem.php:257-279 | No key appears twice in the table, and its keys are exactly its entries. |
| ColumnTable.TableOfKeys | Classes/Hooks/DrawItem.php:261-275 | A key is in the table iff some column has it: its cast colPos, or 32768 when colPos is missing or empty. |
| ColumnTable.TableOfLastWins | Classes/Hooks/DrawItem.php:261-268 | A key holds the entry of the last column that has it. |
| ColumnTable.TableOfUnassigned | Classes/Hooks/DrawItem.php:269-276 | When no column names 32768 explicitly: 32768 is present iff some column lacks a column position, and its entry is then ('', '*', 0). |
| ColumnTable.SingleColumnTable | Classes/Hooks/DrawItem.php:316 | Single-column mode records key 0 alone, without a limit. |
| Workspace.Relocate | Classes/Hooks/DrawItem.php:356-360 | Only sorting, column and container change, and they become the placeholder's. Without a placeholder nothing changes. |
| Workspace.MoveIds | Classes/Hooks/DrawItem.php:346-379 | The set holds the move id of every collected move placeholder, and nothing else. |
| Workspace.PrepareItem | Classes/Hooks/DrawItem.php:347-377 | The prepared record is the workspace version of the record. Only its sorting, column and container may differ, and only for a move placeholder or a move pointer whose placeholder exists; they then become the placeholder's. Every other record is the workspace version unchanged. |
| Workspace.DropMoved | Classes/Hooks/DrawItem.php:381-385 | A record is kept iff its uid was not moved away or it is the move placeholder. A kept record keeps its multiplicity, and the kept records keep their order. |
| Workspace.KeepLive | Classes/Hooks/DrawItem.php:387-392 | A record is kept iff its overlaid state is not positive. The original record is kept, with its multiplicity, in order. |
| Workspace.FilterCollectedItems | Classes/Hooks/DrawItem.php:342-393 | The versioning pass gives the workspace view of the collected records. |
| Workspace.PrepareCollected | Classes/Hooks/DrawItem.php:344-380 | The first workspace loop returns the prepared records and the move ids. |
| Workspace.DropMovedItems | Classes/Hooks/DrawItem.php:381-385 | The second workspace loop drops the records that were moved away. |
| Workspace.KeepLiveItems | Classes/Hooks/DrawItem.php:386-392 | The live loop keeps the records whose live version is live. |
| Workspace.WorkspaceDropsMoveOrigins | Classes/Hooks/DrawItem.php:343-385 | In a workspace, a kept record is a prepared collected record. It does not carry a moved-away uid unless it is the placeholder. |
| Workspace.LiveViewKeepsOriginals | Classes/Hooks/DrawItem.php:386-392 | Without a workspace, the kept records are the unmodified originals with a live overlay, each as often as it was collected, in their order. |
| Assignment.ColumnItemsMembers | Classes/Hooks/DrawItem.php:401-410 | A record is in a column iff it was collected and its column and container fields name that column and the container. |
| Assignment.CollectColumn | Classes/Hooks/DrawItem.php:398-412 | The filter loop returns the column's records in collection order, and the count of those in the container's language. |
| Assignment.AssignColumn | Classes/Hooks/DrawItem.php:398-418 | The column is its candidates sorted by `sorting`: a permutation of them, ordered, with ties in collection order. The counter counts it. Single-column mode gives no records and 0. |
| Assignment.SortedColumn | Classes/Hooks/DrawItem.php:413-418 | Sorting a column keeps its records and its language count, orders it, and keeps ties in order. |
| Assignment.ColumnsAreDisjoint | Classes/Hooks/DrawItem.php:401-410 | No record belongs to two different columns of a container. |
| Assignment.MaxItemsStatus | Classes/Hooks/DrawItem.php:1291-1293 | No class without a limit. "danger" iff over the limit, "warning" iff exactly full, "success" iff below. Over the limit implies new content is disabled. |
| Permissions.Cancel | Classes/Hooks/DrawItem.php:1150-1157 | A key stays allowed iff it is allowed and not disallowed, and stays disallowed iff it is disallowed and not allowed. A key in both sets is removed from both. |
| Permissions.CancelIdempotent | Classes/Hooks/DrawItem.php:1150-1157 | Cancelling a second time changes nothing. |
| Permissions.ContentTypeStep | Classes/Hooks/DrawItem.php:1146-1160 | An allow rule with "*", or an empty one, allows any type (the empty set) and keeps the deny rule. Otherwise a type is allowed iff the rule allows and does not deny it. A type is denied iff the deny rule names it and the allow rule does not name it or holds "*". |
| Permissions.DimensionStep | Classes/Hooks/DrawItem.php:1161-1234 | A deny rule with "*" keeps the deny rule, allows no type and removes the marker content type. Otherwise a type is allowed iff the rules allow it explicitly and do not deny it, and denied iff the deny rule names it and the allow rule does not name it or holds "*". The marker is allowed iff the deny rule has no "*" and the marker was allowed or the allow rule has "*" with restricted content types. Unrestricted content types (the empty set) stay unrestricted. |
| Permissions.CellPermissions | Classes/Hooks/DrawItem.php:1131-1237 | The content, list and grid sets of a cell are the explicit rules after cancellation. Denying all content types empties the allowed types and keeps the previous list and grid sets. A dimension's marker content type is allowed iff its rules and the content-type rules admit it, as stated case by case. The consistency of the carried variables is preserved. |
| Permissions.ListWildcardAddsMarker | Classes/Hooks/DrawItem.php:1189-1193 | An allowed list type "*" with explicit content types adds "list". |
| Permissions.GridWildcardAddsMarker | Classes/Hooks/DrawItem.php:1226-1230 | An allowed grid type "*" with explicit content types adds "gridelements_pi1". |
| Permissions.MarkerCanBeAllowedAndDisallowed | Classes/Hooks/DrawItem.php:1146-1193 | A cell can both allow and deny "list", because the marker is added after the cancellation. |
| Permissions.WildcardCellKeepsPreviousDimensions | Classes/Hooks/DrawItem.php:1138-1141 | When all content types are denied, the list and grid sets are the previous cell's, and "*" joins the grid deny set. |
| Permissions.AllowedCTypeShown | Classes/Hooks/DrawItem.php:1264-1267 | The written allowed content types are "*" exactly when the set is empty, and otherwise the set itself. |
| Permissions.RenderGridRow | Classes/Hooks/DrawItem.php:1126-1297 | The cells of one row continue the cell sequence of the rows above. |
| Permissions.RenderGridLayoutTable | Classes/Hooks/DrawItem.php:1120-1299 | The cell loop over rows 1..rowCount gives the threaded cells of the selected rows. A missing row contributes no cell. |
| Permissions.CellsColumnKeys | Classes/Hooks/DrawItem.php:1126-1131 | There is one cell per column, and each cell carries its column's key: the cast colPos, or 32768. |
| Permissions.SelectedColumnsDeclared | Classes/Hooks/DrawItem.php:1120-1126 | Every column the row loop visits is a column the layout declares. |
| Permissions.CellsConsistent | Classes/Hooks/DrawItem.php:1120-1237 | There is one cell per column. Every cell keeps its list and grid sets disjoint, with no "*" allowed. |
| GridRendering.ScanFlags | Classes/Hooks/DrawItem.php:841-848 | "Standalone" iff some element has no l18n parent. "Translations" iff some element has one. |
| GridRendering.ScanTranslations | Classes/Hooks/DrawItem.php:841-848 | The scan loop computes those two flags. |
| GridRendering.CheckAnswer | Classes/Hooks/DrawItem.php:834-877 | The check answers false for exempt languages. Otherwise it answers the cached flag, or whether the scan found a translation. |
| GridRendering.CachedLanguageNotRescanned | Classes/Hooks/DrawItem.php:840-873 | A cached language is never scanned again and never warned about again, whatever the elements. |
| GridRendering.CheckSettles | Classes/Hooks/DrawItem.php:840-877 | Checking the same elements twice leaves the cache of the first check and does not warn again. |
| GridRendering.EmptyCheckReadsOnly | Classes/Hooks/DrawItem.php:840-877 | A check over no elements leaves the cache unchanged and enqueues no warning. |
| GridRendering.RenderedOfPositions | Classes/Hooks/DrawItem.php:643-661 | Every rendered record is a record of the column that is no delete placeholder. It is over the limit iff the running count up to it exceeds a positive limit. |
| GridRendering.RenderedOfOrdered | Classes/Hooks/DrawItem.php:644-653 | Records are rendered in column order. |
| GridRendering.RenderedOfComplete | Classes/Hooks/DrawItem.php:651-654 | Every record that is no delete placeholder is rendered. |
| GridRendering.NoItemOverLimit | Classes/Hooks/DrawItem.php:643-661 | When the column's count is within the limit, no record is marked over it. |
| GridRendering.UidsOf | Classes/Hooks/DrawItem.php:763 | The edit uid list holds the rendered records' uids in rendering order. |
| GridRendering.ColPosValuesOf | Classes/Hooks/DrawItem.php:214-219 | The column table is that of the layout's columns, or column 0 alone. Single-column mode is on iff the layout has no rows, and then only column 0 exists. Otherwise the keys are exactly those of the layout's columns. No key appears twice. |
| GridRendering.DrawItem.CheckIfTranslationsExistInLanguage | Classes/Hooks/DrawItem.php:824-878 | The new cache, the warning log and the answer follow the one-check specification. The object invariant holds: every cached entry has a flag, every warned language is cached as mixed, and no language is warned twice. |
| GridRendering.DrawItem.RenderSingleGridColumn | Classes/Hooks/DrawItem.php:538-767 | The rendered records, the "new content" offer of the column, and the cache and log the column's checks leave. The edit uid list is the rendered uids. |
| GridRendering.DrawItem.RenderColumnItems | Classes/Hooks/DrawItem.php:642-765 | The record loop produces the specified rendering, with the running count. |
| GridRendering.DrawItem.RenderColumnItem | Classes/Hooks/DrawItem.php:651-763 | One record that is no delete placeholder extends the rendering by exactly its entry. |
| GridRendering.DrawItem.RenderItemChecks | Classes/Hooks/DrawItem.php:663-748 | The highlight reads the cache as the checks so far left it. The "new content" button follows the container language's check. |
| GridRendering.DrawItem.RenderGridColumns | Classes/Hooks/DrawItem.php:332-426 | Each column of the table gets its count of records in the container's language, from the workspace view. In single-column mode no column holds records. The content (each column's "new content" offer and records), the edit uids, the cache and the warning log are those of rendering the columns of the workspace view in table order. |
| GridRendering.DrawItem.RenderColumns | Classes/Hooks/DrawItem.php:395-425 | The column loop records a count and content for every column key of the table. Content, edit uids, cache and warnings are those of rendering the columns in table order, each from the cache the earlier ones left. |
| GridRendering.DrawItem.RenderNextColumn | Classes/Hooks/DrawItem.php:396-421 | One pass of the column loop extends the rendered columns by the next column of the table, and the cache and log by that column's checks. |
| GridRendering.ContentBeforeAt | Classes/Hooks/DrawItem.php:395-421 | With distinct column keys, each rendered column holds exactly one block: its own "new content" offer, decided by the check of the container's language against its records, followed by its records sorted and rendered with the cache the columns before it left. Its edit uid list holds their uids. |
| GridRendering.ContentBeforeAbsent | Classes/Hooks/DrawItem.php:395-421 | A column the loop has not reached yet holds no content and no edit uids. |
| GridRendering.DrawItem.RenderGridColumn | Classes/Hooks/DrawItem.php:398-421 | One column's counter equals the count of its candidates in the container's language. Its "new content" offer is made for an assigned column the user may edit, unless the container's language, checked against the column's records, blocks new content. Its content is its candidates sorted and rendered from the cache so far, its edit uids are their uids, and the cache and log advance by the column's checks. |
| GridRendering.DrawItem.RenderCTypeGridelements | Classes/Hooks/DrawItem.php:188-246 | The mode, the counted columns and the count of each column. The output is the layout table's cells with the rendered column contents when a layout is selected, otherwise the single cell holding column 0's content. In single-column mode without a selected layout, that cell holds no records and only column 0's "new content" button, offered when the user may edit and the language cache does not block new content. The cache and warnings are those of rendering the layout's columns in table order. |
| GridRendering.SingleColumnContent | Classes/Hooks/DrawItem.php:538-637 | In single-column mode column 0 holds one block without records: its "new content" button, offered exactly when the user may edit and the language cache does not block new content. |
| GridRendering.LayoutCellShowsItsColumn | Classes/Hooks/DrawItem.php:1298 | Every cell of the layout table shows a column the column loop rendered: the "new content" offer and the sorted records of its column key, rendered with the cache the earlier columns left. |
| Shortcut.ClassifyByOccurrence | Classes/Hooks/DrawItem.php:1324-1340 | For every token: it is a page token iff "pages_" occurs in it. It is ignored iff it holds an underscore but neither "pages_" nor "tt_content_". Every other token is a record token. |
| Shortcut.Localized | Classes/Hooks/DrawItem.php:1417-1422 | The record is replaced iff overlaying is configured, the language is a translation and a localization exists. It is then replaced by that localization. |
| Shortcut.LocalizedMissing | Classes/Hooks/DrawItem.php:1463-1466 | For a failed fetch, a record appears iff overlaying is configured, the language is a translation and the lookup with the null uid finds a localization; it is that localization. |
| Shortcut.IntExplodeJoin | Classes/Hooks/DrawItem.php:1384 | `intExplode` reads back any non-empty comma-separated list of uids written in decimal. |
| Shortcut.InSet | Classes/Hooks/DrawItem.php:1390-1393 | The page position the `inSet` column is meant to give: 0 iff the page is absent from the list, otherwise the 1-based position of its first occurrence. |
| Shortcut.Matching | Classes/Hooks/DrawItem.php:1395-1409 | The WHERE clause keeps exactly the matching rows. |
| Shortcut.PageQueryResult | Classes/Hooks/DrawItem.php:1388-1414 | The query returns exactly the matching rows, ordered by page position, colPos and sorting. The referencing record never appears. |
| Shortcut.FromPage | Classes/Hooks/DrawItem.php:1417-1427 | A collected page record has its own page as reference container. |
| Shortcut.FromPageAll | Classes/Hooks/DrawItem.php:1416-1429 | Each row of the query gives one present collected record, in query order. |
| Shortcut.OverlayRecord | Classes/Hooks/DrawItem.php:1417-1426 | The record after the translation substitution and the workspace overlay. |
| Shortcut.CollectContentDataFromPages | Classes/Hooks/DrawItem.php:1370-1430 | The collected list is extended by the records of the token's pages. |
| Shortcut.AppendPageRecords | Classes/Hooks/DrawItem.php:1416-1429 | The row loop appends each query row as collected. |
| Shortcut.CollectContentData | Classes/Hooks/DrawItem.php:1441-1478 | The collected list is extended by the named record. Nothing is added for the referencing record. For a missing one an empty entry is added, or the localization the null-uid lookup finds. |
| Shortcut.RenderCTypeShortcut | Classes/Hooks/DrawItem.php:1316-1358 | The rendered references are those of the tokens in order. An empty or "0" field renders none. |
| Shortcut.CollectShortcutItems | Classes/Hooks/DrawItem.php:1322-1342 | The token loop collects the items of each trimmed token in token order. |
| Shortcut.ShortcutEntriesOf | Classes/Hooks/DrawItem.php:1343-1354 | Only present records are rendered, marked as container references iff they have a reference container. |
| Shortcut.SingleToken | Classes/Hooks/DrawItem.php:1319-1342 | A field holding one clean token renders exactly what that token adds. |
| Shortcut.SelfReferenceByUid | Classes/Hooks/DrawItem.php:1443-1444 | A shortcut naming its own uid renders nothing. |
| Shortcut.SelfReferenceByRecordToken | Classes/Hooks/DrawItem.php:1443-1444 | A shortcut naming itself as "tt_content_uid" renders nothing. |
| Shortcut.PageItemsReferenceTheirPage | Classes/Hooks/DrawItem.php:1427 | Every record a page token adds is present and marked with its page. |
| Shortcut.MissingRecordShowsNothing | Classes/Hooks/DrawItem.php:1449-1476 | A record token naming a missing record changes nothing that is rendered, when the localization lookup is not asked or finds nothing. |
| Shortcut.MissingRecordShowsLocalization | Classes/Hooks/DrawItem.php:1449-1476 | When the lookup for a missing record finds a localization, that localization is rendered in its place. |
| PhpStrings.Explode | Classes/Hooks/DrawItem.php:1320 | There is at least one part, and no part contains the separator. |
| PhpStrings.JoinExplode | Classes/Hooks/DrawItem.php:1320 | Joining the parts gives the string back. |
| PhpStrings.ExplodeJoin | Classes/Hooks/DrawItem.php:1320 | Splitting joined parts that contain no separator gives the parts back. |
| PhpStrings.ExplodeAppend | Classes/Hooks/DrawItem.php:1320 | Appending text without a separator extends only the last part. |
| PhpStrings.TrimCuts | Classes/Hooks/DrawItem.php:1323 | The trimmed token is a piece of the original. It neither starts nor ends with whitespace, and only whitespace was cut. |
| PhpStrings.TrimKeeps | Classes/Hooks/DrawItem.php:1323 | A token without surrounding whitespace is its own trim. |
| PhpStrings.ContainsAt | Classes/Hooks/DrawItem.php:1324 | `strpos !== false` iff the substring occurs at some position. |
| PhpStrings.RemoveAllAbsent | Classes/Hooks/DrawItem.php:1443 | str_replace changes nothing without an occurrence. |
| PhpStrings.RemoveAllPrefix | Classes/Hooks/DrawItem.php:1443 | str_replace removes a leading occurrence. |
| PhpStrings.IntValToDecimal | Classes/Hooks/DrawItem.php:1444 | The integer cast reads back a uid written in decimal. |
| PhpStrings.IntValExponent | Classes/Hooks/DrawItem.php:1444 | The cast reads digits, "e" and digits as the mantissa times that power of ten. |

## Left out

- HTML: markup, icons, URLs, route building, column headers
  (`setColumnHeader`, `tt_content_drawColHeader`), colgroup widths (a float
  division), the collapsed state, and `renderSingleElementHTML`. These only
  render or format values the model computes.
- The database queries and the backend utilities are parameters; their
  restrictions (hidden, start/end time) are not modelled:
  - `collectItemsForColumns` and the query of `setSingleColPosItems`
    (collected records)
  - the workspace overlay, `getMovePlaceholder`, `getRecordLocalization`,
    `workspaceOL` and `getTreeList`
- The user's editing permission and content lock (`mayEdit`) and the page
  TSconfig override (`allowInconsistent`) are boolean inputs.
- Exceptions thrown by the backend calls, and the `try`/`catch` around the
  checks, are not modelled.
- `htmlspecialchars` of the type keys, and the comma-joined rendering of the
  allow/deny sets: the sets are modelled as sets of keys, so the written
  order is not modelled.
- `(int)` casts are modelled on unbounded integers, without the 64-bit
  overflow of PHP. A numeric string with a fraction or an exponent is
  evaluated exactly, not through a double.
- The database's order for rows that tie on all three keys of the page query
  is modelled as their order in the `content` table.
- `workspaceOL` can remove a record. The model assumes it returns one.
- For a missing record, what `getRecordLocalization` answers for the null
  uid is an input (`localizeMissing`), since it is backend code.
- The edit uid list of a column is a sequence of uids rather than the
  comma-joined string.
- Database fields are taken to arrive as native integers. The strict `===`
  comparisons of the workspace pass, the language count and the running
  count (DrawItem.php lines 347, 363, 404-405 and 646-647) are modelled as
  integer equality. With a driver that returns strings (PDO MySQL before
  PHP 8.1) those comparisons would fail, and the move-placeholder,
  move-pointer and "all languages" branches would never be taken.
- `usort` is modelled as stable. PHP before 8.0, which this code also
  supports, leaves the order of records with equal `sorting` unspecified.
- The page query orders rows by the position of their page in the page
  list. The SQL that `inSet('pid', ...)` builds is `FIND_IN_SET(value,
  field)`, with the arguments the other way round; the model uses the
  intended page-position order, not the SQL the builder emits.
- `renderCTypeGridelements`: looking up the original record of a workspace
  version and the layout setup (`LayoutSetup`) are inputs (`layout` and
  `layoutSelected`).
