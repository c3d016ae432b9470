/**
 * The tt_content record as the gridelements page-module hook reads it, and the
 * language-match rule that every per-column count uses.
 */
module Records {

  datatype Option<T> = None | Some(value: T)

  /** Versioning states (t3ver_state) that the hook compares against. */
  const DeletePlaceholder: int := 2
  const MovePlaceholder: int := 3
  const MovePointer: int := 4

  /** The fields of one content record that the hook's logic reads or writes. */
  datatype Row = Row(
    uid: int,
    pid: int,
    colPos: int,               // colPos: -1 for children of a grid container
    columns: int,              // tx_gridelements_columns
    container: int,            // tx_gridelements_container
    sorting: int,
    language: int,             // sys_language_uid: -1 all languages, 0 default
    state: int,                // t3ver_state
    l18nParent: int,           // l18n_parent: 0 for standalone content
    moveId: int,               // t3ver_move_id
    movePlh: bool,             // _MOVE_PLH, set by the workspace overlay on a move placeholder
    referenceContainer: int    // tx_gridelements_reference_container
  )

  /**
   * An item counts toward its container's column when it has the container's
   * language, or when the container is "all languages" and the item is in the
   * default language.
   */
  predicate LanguageMatches(containerLanguage: int, itemLanguage: int)
  {
    containerLanguage == itemLanguage || (containerLanguage == -1 && itemLanguage == 0)
  }

  /** Number of items whose language matches a container in `language`. */
  function CountMatching(items: seq<Row>, language: int): (n: nat)
    ensures n <= |items|
    ensures n == 0 <==> forall i :: 0 <= i < |items| ==> !LanguageMatches(language, items[i].language)
  {
    if items == [] then 0
    else
      var last := items[|items| - 1];
      CountMatching(items[..|items| - 1], language) + (if LanguageMatches(language, last.language) then 1 else 0)
  }

  lemma {:induction false} CountMatchingConcat(a: seq<Row>, b: seq<Row>, language: int)
    ensures CountMatching(a + b, language) == CountMatching(a, language) + CountMatching(b, language)
    decreases |b|
  {
    if b == [] {
      assert a + b == a;
    } else {
      var b' := b[..|b| - 1];
      assert (a + b)[..|a + b| - 1] == a + b';
      CountMatchingConcat(a, b', language);
    }
  }

  /** Counting does not depend on the order of the items. */
  lemma {:induction false} CountMatchingPermutation(a: seq<Row>, b: seq<Row>, language: int)
    requires multiset(a) == multiset(b)
    ensures CountMatching(a, language) == CountMatching(b, language)
    decreases |a|
  {
    if a == [] {
      assert |b| == |multiset(b)| == 0;
    } else {
      var x := a[|a| - 1];
      var a' := a[..|a| - 1];
      assert a == a' + [x];
      assert x in multiset(b);
      var i :| 0 <= i < |b| && b[i] == x;
      var b' := b[..i] + b[i + 1..];
      MultisetRemove(b, i);
      assert multiset(a) == multiset(a') + multiset{x};
      CountMatchingPermutation(a', b', language);
      CountMatchingRemove(b, i, language);
    }
  }

  lemma MultisetRemove(b: seq<Row>, i: nat)
    requires i < |b|
    ensures multiset(b[..i] + b[i + 1..]) == multiset(b) - multiset{b[i]}
  {
    assert b == b[..i] + [b[i]] + b[i + 1..];
  }

  /** Taking one item out of a list takes its contribution out of the count. */
  lemma CountMatchingRemove(b: seq<Row>, i: nat, language: int)
    requires i < |b|
    ensures CountMatching(b, language)
      == CountMatching(b[..i] + b[i + 1..], language) + (if LanguageMatches(language, b[i].language) then 1 else 0)
  {
    var x := b[i];
    assert b == b[..i] + [x] + b[i + 1..];
    CountMatchingConcat(b[..i], [x], language);
    CountMatchingConcat(b[..i] + [x], b[i + 1..], language);
    CountMatchingConcat(b[..i], b[i + 1..], language);
    assert [x][..0] == [];
  }

  lemma CountMatchingSnoc(items: seq<Row>, x: Row, language: int)
    ensures CountMatching(items + [x], language) == CountMatching(items, language) + (if LanguageMatches(language, x.language) then 1 else 0)
  {
    assert (items + [x])[..|items|] == items;
  }

  lemma CountMatchingStep(items: seq<Row>, i: nat, language: int)
    requires i < |items|
    ensures CountMatching(items[..i + 1], language)
      == CountMatching(items[..i], language) + (if LanguageMatches(language, items[i].language) then 1 else 0)
  {
    assert items[..i + 1][..i] == items[..i];
  }

  /** A running count over a prefix never exceeds the count over the whole list. */
  lemma {:induction false} CountMatchingPrefix(items: seq<Row>, k: nat, language: int)
    requires k <= |items|
    ensures CountMatching(items[..k], language) <= CountMatching(items, language)
  {
    assert items == items[..k] + items[k..];
    CountMatchingConcat(items[..k], items[k..], language);
  }
}
