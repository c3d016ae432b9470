/**
 * Resolution of a shortcut record (CType "shortcut"): its `records` field is
 * a comma-separated list of tokens naming single content records
 * ("tt_content_12" or "12") or whole pages ("pages_3"); the referenced
 * records are collected in token order and rendered as references.
 *
 * The database and the backend utilities are parameters, gathered in
 * `Backend`: the content table the page query reads, the single-record
 * lookup, the localization lookup, the page tree expansion and the workspace
 * overlay.
 */
module Shortcut {
  import opened Records
  import opened Sorting
  import opened PhpStrings

  const PagesPrefix: string := "pages_"
  const ContentPrefix: string := "tt_content_"

  datatype Backend = Backend(
    content: seq<Row>,                     // tt_content as the page query reads it
    fetch: int -> Option<Row>,             // the record with a uid, under the page's visibility restrictions
    localize: (int, int) -> Option<Row>,   // the first localization of a record uid into a language
    localizeMissing: int -> Option<Row>,   // the same lookup asked with the null uid of a failed fetch
    treeList: (string, int) -> string,     // the pages below a page list down to a depth, comma-separated
    wsOverlay: Row -> Row,                 // the record as the current workspace sees it
    workspace: int,
    overlayTranslation: bool               // the extension setting overlayShortcutTranslation
  )

  datatype TokenKind = PageToken | ContentToken | Ignored

  /** A token naming pages holds "pages_"; otherwise it names a record when it has no "_" or holds "tt_content_". */
  function Classify(token: string): TokenKind
  {
    if Contains(token, PagesPrefix) then PageToken
    else if !Contains(token, "_") || Contains(token, ContentPrefix) then ContentToken
    else Ignored
  }

  /** A string lacking one of the characters of `sub` does not contain `sub`. */
  lemma MissingCharNotContained(s: string, sub: string, c: char)
    requires c in sub && c !in s
    ensures !Contains(s, sub)
  {
    ContainsAt(s, sub);
  }

  /**
   * Every token: it names pages iff "pages_" occurs in it; it is ignored iff it
   * holds an underscore but neither "pages_" nor "tt_content_"; otherwise it
   * names a record.
   */
  lemma ClassifyByOccurrence(token: string)
    ensures Classify(token) == PageToken <==> exists i :: OccursAt(token, PagesPrefix, i)
    ensures Classify(token) == Ignored <==>
      && '_' in token
      && !(exists i :: OccursAt(token, PagesPrefix, i))
      && !(exists i :: OccursAt(token, ContentPrefix, i))
  {
    ContainsAt(token, PagesPrefix);
    ContainsAt(token, ContentPrefix);
    ContainsAt(token, "_");
    if '_' in token {
      var i :| 0 <= i < |token| && token[i] == '_';
      assert OccursAt(token, "_", i);
    }
    if exists i :: OccursAt(token, "_", i) {
      var i :| OccursAt(token, "_", i);
      assert token[i] == token[i..i + 1][0];
    }
  }

  /** The record, replaced by its localization only when overlaying is configured, the language is a translation and a localization exists. */
  function Localized(item: Row, language: int, b: Backend): (r: Row)
    ensures r != item ==> b.overlayTranslation && language > 0 && b.localize(item.uid, language).Some?
    ensures b.overlayTranslation && language > 0 && b.localize(item.uid, language).Some? ==> r == b.localize(item.uid, language).value
  {
    if b.overlayTranslation && language > 0 then
      match b.localize(item.uid, language)
      case Some(translated) => translated
      case None => item
    else item
  }

  /**
   * A failed fetch leaves no record, yet the localization lookup is still
   * asked, with the null uid of the missing record, and what it finds is taken.
   */
  function LocalizedMissing(language: int, b: Backend): (r: Option<Row>)
    ensures r.Some? <==> b.overlayTranslation && language > 0 && b.localizeMissing(language).Some?
    ensures r.Some? ==> r == b.localizeMissing(language)
  {
    if b.overlayTranslation && language > 0 then b.localizeMissing(language) else None
  }

  /** The record under the workspace overlay, when a workspace is active. */
  function Versioned(item: Row, b: Backend): Row
  {
    if b.workspace > 0 then b.wsOverlay(item) else item
  }

  /** intExplode(',', $s): the integer value of every comma-separated part. */
  function IntExplode(s: string): seq<int>
  {
    var parts := Explode(s, ',');
    seq(|parts|, i requires 0 <= i < |parts| => IntVal(parts[i]))
  }

  /** The decimal notation of every uid. */
  function Decimals(uids: seq<nat>): seq<string>
  {
    seq(|uids|, i requires 0 <= i < |uids| => ToDecimal(uids[i]))
  }

  /** intExplode reads back a comma-separated list of uids written in decimal. */
  lemma IntExplodeJoin(uids: seq<nat>)
    requires |uids| >= 1
    ensures IntExplode(Join(Decimals(uids), ',')) == uids
  {
    var d := Decimals(uids);
    forall i | 0 <= i < |d|
      ensures ',' !in d[i]
    {
      assert forall j :: 0 <= j < |d[i]| ==> IsDigit(d[i][j]);
    }
    ExplodeJoin(d, ',');
    forall i | 0 <= i < |uids|
      ensures IntVal(d[i]) == uids[i]
    {
      IntValToDecimal(uids[i]);
    }
  }

  /** The pages a page token names: its page list, expanded to the page tree when a depth is given. */
  function PageIds(token: string, recursive: int, b: Backend): seq<int>
  {
    var itemList := RemoveAll(token, PagesPrefix);
    IntExplode(if recursive != 0 then b.treeList(itemList, recursive) else itemList)
  }

  /** FIND_IN_SET: the 1-based position of the first occurrence of `pid` in `ids`, 0 when absent. */
  function InSet(pid: int, ids: seq<int>): (n: nat)
    ensures n == 0 <==> pid !in ids
    ensures n > 0 ==> n <= |ids| && ids[n - 1] == pid && forall j :: 0 <= j < n - 1 ==> ids[j] != pid
  {
    if ids == [] then 0
    else if ids[0] == pid then 1
    else
      var k := InSet(pid, ids[1..]);
      if k == 0 then 0 else k + 1
  }

  /** The WHERE clause of the page query. */
  predicate PageQueryMatches(r: Row, ids: seq<int>, parentUid: int)
  {
    r.uid != parentUid && r.pid in ids && r.colPos >= 0 && (r.language == 0 || r.language == -1)
  }

  /** ORDER BY inSet, colPos, sorting. */
  function PageKey(ids: seq<int>): Row -> seq<int>
  {
    (r: Row) => [InSet(r.pid, ids), r.colPos, r.sorting]
  }

  function Matching(rows: seq<Row>, ids: seq<int>, parentUid: int): (kept: seq<Row>)
    ensures forall r :: r in kept <==> r in rows && PageQueryMatches(r, ids, parentUid)
    ensures |kept| <= |rows|
  {
    if rows == [] then []
    else
      var last := rows[|rows| - 1];
      assert rows == rows[..|rows| - 1] + [last];
      Matching(rows[..|rows| - 1], ids, parentUid) + (if PageQueryMatches(last, ids, parentUid) then [last] else [])
  }

  /** The rows the page query returns, in its order. */
  function PageQuery(rows: seq<Row>, ids: seq<int>, parentUid: int): seq<Row>
  {
    SortBy(Matching(rows, ids, parentUid), PageKey(ids))
  }

  /**
   * The page query returns exactly the matching rows, by page position in the
   * list, then column, then sorting; the referencing record never appears.
   */
  lemma PageQueryResult(rows: seq<Row>, ids: seq<int>, parentUid: int)
    ensures multiset(PageQuery(rows, ids, parentUid)) == multiset(Matching(rows, ids, parentUid))
    ensures SortedBy(PageQuery(rows, ids, parentUid), PageKey(ids))
    ensures forall r :: r in PageQuery(rows, ids, parentUid) <==> r in rows && PageQueryMatches(r, ids, parentUid)
    ensures forall r :: r in PageQuery(rows, ids, parentUid) ==> r.uid != parentUid && InSet(r.pid, ids) > 0
  {
    SortBySorted(Matching(rows, ids, parentUid), PageKey(ids));
    SortByPermutation(Matching(rows, ids, parentUid), PageKey(ids));
    var q := PageQuery(rows, ids, parentUid);
    forall r
      ensures r in q <==> r in Matching(rows, ids, parentUid)
    {
      assert r in q <==> r in multiset(q);
    }
  }

  /** A page record as collected: localized, overlaid, and marked with its page as reference container. */
  function FromPage(item: Row, language: int, b: Backend): (r: Row)
    ensures r.referenceContainer == r.pid
  {
    var version := Versioned(Localized(item, language, b), b);
    version.(referenceContainer := version.pid)
  }

  function FromPageAll(rows: seq<Row>, language: int, b: Backend): (items: seq<Option<Row>>)
    ensures |items| == |rows|
    ensures forall i :: 0 <= i < |rows| ==> items[i] == Some(FromPage(rows[i], language, b))
  {
    if rows == [] then []
    else FromPageAll(rows[..|rows| - 1], language, b) + [Some(FromPage(rows[|rows| - 1], language, b))]
  }

  /** What a page token adds. */
  function PageItems(token: string, recursive: int, parentUid: int, language: int, b: Backend): seq<Option<Row>>
  {
    FromPageAll(PageQuery(b.content, PageIds(token, recursive, b), parentUid), language, b)
  }

  /** The uid a record token names. */
  function ContentUid(token: string): int
  {
    IntVal(RemoveAll(token, ContentPrefix))
  }

  /**
   * What a record token adds: nothing for the referencing record itself;
   * for a missing record, whatever localization the lookup found, or an empty
   * entry (the workspace overlay leaves a missing record missing).
   */
  function ContentItems(token: string, parentUid: int, language: int, b: Backend): seq<Option<Row>>
  {
    var uid := ContentUid(token);
    if uid == parentUid then []
    else match b.fetch(uid)
      case None => (match LocalizedMissing(language, b)
        case None => [None]
        case Some(t) => [Some(Versioned(t, b))])
      case Some(r) => [Some(Versioned(Localized(r, language, b), b))]
  }

  function TokenItems(token: string, recursive: int, parentUid: int, language: int, b: Backend): seq<Option<Row>>
  {
    match Classify(token)
    case PageToken => PageItems(token, recursive, parentUid, language, b)
    case ContentToken => ContentItems(token, parentUid, language, b)
    case Ignored => []
  }

  /** The items of the (untrimmed) tokens, in token order. */
  function CollectedOf(tokens: seq<string>, recursive: int, parentUid: int, language: int, b: Backend): seq<Option<Row>>
  {
    if tokens == [] then []
    else
      CollectedOf(tokens[..|tokens| - 1], recursive, parentUid, language, b)
        + TokenItems(Trim(tokens[|tokens| - 1]), recursive, parentUid, language, b)
  }

  /** One rendered reference: the record, and whether it is shown as a container reference. */
  datatype ShortcutEntry = ShortcutEntry(item: Row, containerReference: bool)

  /** Missing records are skipped; a record with a reference container is shown as a container reference. */
  function Entries(collected: seq<Option<Row>>): seq<ShortcutEntry>
  {
    if collected == [] then []
    else
      var last := collected[|collected| - 1];
      Entries(collected[..|collected| - 1])
        + (if last.Some? then [ShortcutEntry(last.value, last.value.referenceContainer != 0)] else [])
  }

  /** The references a shortcut shows; an empty or "0" field shows none. */
  function ShortcutEntries(records: string, recursive: int, parentUid: int, language: int, b: Backend): seq<ShortcutEntry>
  {
    if records == "" || records == "0" then []
    else Entries(CollectedOf(Explode(records, ','), recursive, parentUid, language, b))
  }

  /** The translation substitution and the workspace overlay both collectors apply to a record. */
  method OverlayRecord(item: Row, language: int, b: Backend) returns (record: Row)
    ensures record == Versioned(Localized(item, language, b), b)
  {
    record := item;
    if b.overlayTranslation && language > 0 {
      var translatedItem := b.localize(item.uid, language);
      if translatedItem.Some? {
        record := translatedItem.value;
      }
    }
    if b.workspace > 0 {
      record := b.wsOverlay(record);
    }
  }

  /** Adds the records of the pages a page token names. */
  method CollectContentDataFromPages(shortcutItem: string, collectedItems: seq<Option<Row>>, recursive: int,
                                     parentUid: int, language: int, b: Backend)
    returns (collected: seq<Option<Row>>)
    ensures collected == collectedItems + PageItems(shortcutItem, recursive, parentUid, language, b)
  {
    var itemList := RemoveAll(shortcutItem, PagesPrefix);
    if recursive != 0 {
      itemList := b.treeList(itemList, recursive);
    }
    var items := PageQuery(b.content, IntExplode(itemList), parentUid);
    collected := AppendPageRecords(collectedItems, items, language, b);
  }

  /** The loop over the page query's rows. */
  method AppendPageRecords(collectedItems: seq<Option<Row>>, items: seq<Row>, language: int, b: Backend)
    returns (collected: seq<Option<Row>>)
    ensures collected == collectedItems + FromPageAll(items, language, b)
  {
    collected := collectedItems;
    for i := 0 to |items|
      invariant collected == collectedItems + FromPageAll(items[..i], language, b)
    {
      var item := OverlayRecord(items[i], language, b);
      item := item.(referenceContainer := item.pid);
      assert items[..i + 1][..i] == items[..i];
      collected := collected + [Some(item)];
    }
    assert items[..|items|] == items;
  }

  /** Adds the record a record token names, unless it is the referencing record. */
  method CollectContentData(shortcutItem: string, collectedItems: seq<Option<Row>>, parentUid: int, language: int, b: Backend)
    returns (collected: seq<Option<Row>>)
    ensures collected == collectedItems + ContentItems(shortcutItem, parentUid, language, b)
  {
    collected := collectedItems;
    var uid := IntVal(RemoveAll(shortcutItem, ContentPrefix));
    if uid != parentUid {
      var item := b.fetch(uid);
      if item.Some? {
        var record := OverlayRecord(item.value, language, b);
        collected := collected + [Some(record)];
      } else {
        var translatedItem := None;
        if b.overlayTranslation && language > 0 {
          translatedItem := b.localizeMissing(language);
        }
        if translatedItem.Some? && b.workspace > 0 {
          translatedItem := Some(b.wsOverlay(translatedItem.value));
        }
        collected := collected + [translatedItem];
      }
    }
  }

  /** The references of a shortcut record, in the order its tokens name them. */
  method RenderCTypeShortcut(records: string, recursive: int, uid: int, language: int, b: Backend)
    returns (entries: seq<ShortcutEntry>)
    ensures entries == ShortcutEntries(records, recursive, uid, language, b)
  {
    entries := [];
    if records != "" && records != "0" {
      var collectedItems := CollectShortcutItems(Explode(records, ','), recursive, uid, language, b);
      entries := ShortcutEntriesOf(collectedItems);
    }
  }

  /** The loop over the tokens of the records field. */
  method CollectShortcutItems(shortcutItems: seq<string>, recursive: int, uid: int, language: int, b: Backend)
    returns (collectedItems: seq<Option<Row>>)
    ensures collectedItems == CollectedOf(shortcutItems, recursive, uid, language, b)
  {
    collectedItems := [];
    for i := 0 to |shortcutItems|
      invariant collectedItems == CollectedOf(shortcutItems[..i], recursive, uid, language, b)
    {
      var shortcutItem := Trim(shortcutItems[i]);
      CollectedOfStep(shortcutItems, i, recursive, uid, language, b);
      if Contains(shortcutItem, PagesPrefix) {
        collectedItems := CollectContentDataFromPages(shortcutItem, collectedItems, recursive, uid, language, b);
      } else if !Contains(shortcutItem, "_") || Contains(shortcutItem, ContentPrefix) {
        collectedItems := CollectContentData(shortcutItem, collectedItems, uid, language, b);
      }
    }
    assert shortcutItems[..|shortcutItems|] == shortcutItems;
  }

  lemma CollectedOfStep(tokens: seq<string>, i: nat, recursive: int, parentUid: int, language: int, b: Backend)
    requires i < |tokens|
    ensures CollectedOf(tokens[..i + 1], recursive, parentUid, language, b)
      == CollectedOf(tokens[..i], recursive, parentUid, language, b) + TokenItems(Trim(tokens[i]), recursive, parentUid, language, b)
  {
    assert tokens[..i + 1][..i] == tokens[..i];
  }

  /** The rendering loop: present records only, container references marked. */
  method ShortcutEntriesOf(collectedItems: seq<Option<Row>>) returns (entries: seq<ShortcutEntry>)
    ensures entries == Entries(collectedItems)
  {
    entries := [];
    for i := 0 to |collectedItems|
      invariant entries == Entries(collectedItems[..i])
    {
      assert collectedItems[..i + 1][..i] == collectedItems[..i];
      var item := collectedItems[i];
      if item.Some? {
        entries := entries + [ShortcutEntry(item.value, item.value.referenceContainer != 0)];
      }
    }
    assert collectedItems[..|collectedItems|] == collectedItems;
  }

  /** A records field holding one token, without surrounding whitespace, shows what that token adds. */
  lemma SingleToken(token: string, recursive: int, parentUid: int, language: int, b: Backend)
    requires token != "" && token != "0"
    requires forall i :: 0 <= i < |token| ==> token[i] != ','
    requires !IsTrimmable(token[0]) && !IsTrimmable(token[|token| - 1])
    ensures ShortcutEntries(token, recursive, parentUid, language, b) == Entries(TokenItems(token, recursive, parentUid, language, b))
  {
    SingleTokenExplodes(token);
    TrimKeeps(token);
    CollectedOfSingle(token, recursive, parentUid, language, b);
  }

  lemma CollectedOfSingle(token: string, recursive: int, parentUid: int, language: int, b: Backend)
    ensures CollectedOf([token], recursive, parentUid, language, b) == TokenItems(Trim(token), recursive, parentUid, language, b)
  {
    assert [token][..0] == [];
    assert CollectedOf([], recursive, parentUid, language, b) == [];
  }

  /** A shortcut naming its own record by uid shows nothing. */
  lemma SelfReferenceByUid(uid: nat, recursive: int, language: int, b: Backend)
    ensures ShortcutEntries(ToDecimal(uid), recursive, uid, language, b) == []
  {
    var digits := ToDecimal(uid);
    if digits != "0" {
      assert forall c :: c in digits ==> IsDigit(c);
      SingleToken(digits, recursive, uid, language, b);
      MissingCharNotContained(digits, PagesPrefix, 'p');
      MissingCharNotContained(digits, "_", '_');
      MissingCharNotContained(digits, ContentPrefix, '_');
      RemoveAllAbsent(digits, ContentPrefix);
      IntValToDecimal(uid);
      assert TokenItems(digits, recursive, uid, language, b) == [];
    }
  }

  /** A shortcut naming its own record as "tt_content_<uid>" shows nothing. */
  lemma SelfReferenceByRecordToken(uid: nat, recursive: int, language: int, b: Backend)
    ensures ShortcutEntries(ContentPrefix + ToDecimal(uid), recursive, uid, language, b) == []
  {
    var prefixed := ContentPrefix + ToDecimal(uid);
    RecordTokenShape(uid);
    SingleToken(prefixed, recursive, uid, language, b);
    RecordTokenIsContent(uid);
    RecordTokenUid(uid);
    assert TokenItems(prefixed, recursive, uid, language, b) == [];
  }

  /** "tt_content_<uid>" is one token without surrounding whitespace. */
  lemma RecordTokenShape(uid: nat)
    ensures var t := ContentPrefix + ToDecimal(uid);
      && t != "" && t != "0" && (forall i :: 0 <= i < |t| ==> t[i] != ',')
      && !IsTrimmable(t[0]) && !IsTrimmable(t[|t| - 1])
  {
    var digits := ToDecimal(uid);
    var prefixed := ContentPrefix + digits;
    forall i | 0 <= i < |prefixed|
      ensures prefixed[i] != ','
    {
      if i >= |ContentPrefix| {
        assert prefixed[i] == digits[i - |ContentPrefix|];
        assert IsDigit(digits[i - |ContentPrefix|]);
      }
    }
    assert prefixed[|prefixed| - 1] == digits[|digits| - 1];
    assert IsDigit(digits[|digits| - 1]);
  }

  lemma RecordTokenIsContent(uid: nat)
    ensures Classify(ContentPrefix + ToDecimal(uid)) == ContentToken
  {
    var prefixed := ContentPrefix + ToDecimal(uid);
    assert prefixed[..|ContentPrefix|] == ContentPrefix;
    assert StartsWith(prefixed, ContentPrefix);
    MissingCharNotContained(prefixed, PagesPrefix, 'p');
  }

  lemma RecordTokenUid(uid: nat)
    ensures ContentUid(ContentPrefix + ToDecimal(uid)) == uid
  {
    var digits := ToDecimal(uid);
    assert forall c :: c in digits ==> IsDigit(c);
    MissingCharNotContained(digits, ContentPrefix, '_');
    RemoveAllPrefix(ContentPrefix, digits);
    RemoveAllAbsent(digits, ContentPrefix);
    IntValToDecimal(uid);
  }

  /** A string without a comma is a single token. */
  lemma SingleTokenExplodes(s: string)
    requires forall i :: 0 <= i < |s| ==> s[i] != ','
    ensures Explode(s, ',') == [s]
  {
    ExplodeJoin([s], ',');
  }

  /** Every record a page token adds is present and marked with its page as reference container. */
  lemma PageItemsReferenceTheirPage(token: string, recursive: int, parentUid: int, language: int, b: Backend)
    ensures forall x :: x in PageItems(token, recursive, parentUid, language, b) ==> x.Some? && x.value.referenceContainer == x.value.pid
  {
    var items := PageItems(token, recursive, parentUid, language, b);
    forall x | x in items
      ensures x.Some? && x.value.referenceContainer == x.value.pid
    {
      var i :| 0 <= i < |items| && items[i] == x;
    }
  }

  /**
   * A record token naming a missing record adds an entry that is never
   * rendered, as long as the localization lookup for the missing record finds
   * nothing or is not asked.
   */
  lemma MissingRecordShowsNothing(token: string, parentUid: int, language: int, b: Backend, before: seq<Option<Row>>)
    requires ContentUid(token) != parentUid && b.fetch(ContentUid(token)).None?
    requires !b.overlayTranslation || language <= 0 || b.localizeMissing(language).None?
    ensures Entries(before + ContentItems(token, parentUid, language, b)) == Entries(before)
  {
    var all := before + ContentItems(token, parentUid, language, b);
    assert all[..|all| - 1] == before;
  }

  /**
   * When the lookup for the missing record does find a localization, that
   * record is rendered in the missing record's place.
   */
  lemma MissingRecordShowsLocalization(token: string, parentUid: int, language: int, b: Backend, before: seq<Option<Row>>)
    requires ContentUid(token) != parentUid && b.fetch(ContentUid(token)).None?
    requires b.overlayTranslation && language > 0 && b.localizeMissing(language).Some?
    ensures var t := Versioned(b.localizeMissing(language).value, b);
      Entries(before + ContentItems(token, parentUid, language, b)) == Entries(before) + [ShortcutEntry(t, t.referenceContainer != 0)]
  {
    var all := before + ContentItems(token, parentUid, language, b);
    assert all[..|all| - 1] == before;
  }
}
