/**
 * Versioning overlay of the records collected for a grid container
 * (first half of renderGridColumns). The workspace overlay and the
 * move-placeholder lookup of the backend are parameters: `overlay(uid)` is the
 * record as the current workspace sees it, `placeholder(uid)` the position of
 * its move placeholder, if there is one.
 */
module Workspace {
  import opened Records

  /** Position fields of a move placeholder, copied onto the moved record. */
  datatype Placement = Placement(sorting: int, columns: int, container: int)

  /** `a` is `b` with some records left out, in the same order. */
  predicate IsSubsequence(a: seq<Row>, b: seq<Row>)
    decreases |b|
  {
    a == [] || (b != [] &&
      if a[|a| - 1] == b[|b| - 1] then IsSubsequence(a[..|a| - 1], b[..|b| - 1])
      else IsSubsequence(a, b[..|b| - 1]))
  }

  /** A move placeholder's position replaces the record's; nothing else of the record changes. */
  function Relocate(item: Row, placeholder: Option<Placement>): (r: Row)
    ensures r.(sorting := item.sorting, columns := item.columns, container := item.container) == item
    ensures placeholder.None? ==> r == item
    ensures placeholder.Some? ==>
      (r.sorting == placeholder.value.sorting && r.columns == placeholder.value.columns && r.container == placeholder.value.container)
  {
    match placeholder
    case None => item
    case Some(p) => item.(sorting := p.sorting, columns := p.columns, container := p.container)
  }

  /**
   * One record as the workspace pass rewrites it: the workspace version, moved
   * to its placeholder's position when the collected record is a move
   * placeholder or its workspace version is a move pointer.
   */
  function PrepareItem(item: Row, overlay: int -> Row, placeholder: int -> Option<Placement>): (r: Row)
    ensures var version := overlay(item.uid);
      r.(sorting := version.sorting, columns := version.columns, container := version.container) == version
    ensures item.state != MovePlaceholder && overlay(item.uid).state != MovePointer ==> r == overlay(item.uid)
    ensures placeholder(overlay(item.uid).uid).None? ==> r == overlay(item.uid)
    ensures (item.state == MovePlaceholder || overlay(item.uid).state == MovePointer) ==>
      match placeholder(overlay(item.uid).uid)
      case Some(p) => r.sorting == p.sorting && r.columns == p.columns && r.container == p.container
      case None => true
  {
    var version := overlay(item.uid);
    if item.state == MovePlaceholder || version.state == MovePointer then Relocate(version, placeholder(version.uid))
    else version
  }

  /** The t3ver_move_id of every collected move placeholder. */
  function MoveIds(collected: seq<Row>): (ids: set<int>)
    ensures forall i :: 0 <= i < |collected| && collected[i].state == MovePlaceholder ==> collected[i].moveId in ids
    ensures forall id :: id in ids ==> exists i :: 0 <= i < |collected| && collected[i].state == MovePlaceholder && collected[i].moveId == id
  {
    if collected == [] then {}
    else
      var last := collected[|collected| - 1];
      MoveIds(collected[..|collected| - 1]) + (if last.state == MovePlaceholder then {last.moveId} else {})
  }

  /** Records whose uid was moved away are dropped unless they are the move placeholder. */
  function DropMoved(prepared: seq<Row>, moveIds: set<int>): (kept: seq<Row>)
    ensures forall r :: r in kept <==> r in prepared && (r.uid !in moveIds || r.movePlh)
    ensures IsSubsequence(kept, prepared)
    ensures forall r :: multiset(kept)[r] == if r.uid !in moveIds || r.movePlh then multiset(prepared)[r] else 0
  {
    if prepared == [] then []
    else
      var last := prepared[|prepared| - 1];
      var init := DropMoved(prepared[..|prepared| - 1], moveIds);
      assert prepared == prepared[..|prepared| - 1] + [last];
      if last.uid !in moveIds || last.movePlh then
        assert (init + [last])[..|init + [last]| - 1] == init;
        init + [last]
      else init
  }

  /** Without a workspace: a record stays iff its overlaid state is not positive; the original record is kept. */
  function KeepLive(collected: seq<Row>, overlay: int -> Row): (kept: seq<Row>)
    ensures forall r :: r in kept <==> r in collected && overlay(r.uid).state <= 0
    ensures IsSubsequence(kept, collected)
    ensures forall r :: multiset(kept)[r] == if overlay(r.uid).state <= 0 then multiset(collected)[r] else 0
  {
    if collected == [] then []
    else
      var last := collected[|collected| - 1];
      var init := KeepLive(collected[..|collected| - 1], overlay);
      assert collected == collected[..|collected| - 1] + [last];
      if overlay(last.uid).state <= 0 then
        assert (init + [last])[..|init + [last]| - 1] == init;
        init + [last]
      else init
  }

  function Prepared(collected: seq<Row>, overlay: int -> Row, placeholder: int -> Option<Placement>): seq<Row>
  {
    seq(|collected|, i requires 0 <= i < |collected| => PrepareItem(collected[i], overlay, placeholder))
  }

  /** The records that stay after the versioning pass. */
  function WorkspaceView(collected: seq<Row>, workspace: int, overlay: int -> Row, placeholder: int -> Option<Placement>): seq<Row>
  {
    if workspace > 0 then DropMoved(Prepared(collected, overlay, placeholder), MoveIds(collected))
    else KeepLive(collected, overlay)
  }

  /** The versioning pass of renderGridColumns over the collected records. */
  method FilterCollectedItems(collected: seq<Row>, workspace: int, overlay: int -> Row, placeholder: int -> Option<Placement>)
    returns (items: seq<Row>)
    ensures items == WorkspaceView(collected, workspace, overlay, placeholder)
  {
    if workspace > 0 {
      var prepared, moveUids := PrepareCollected(collected, overlay, placeholder);
      items := DropMovedItems(prepared, moveUids);
    } else {
      items := KeepLiveItems(collected, overlay);
    }
  }

  /** In a workspace, first loop: every record replaced by its prepared version, the move ids gathered. */
  method PrepareCollected(collected: seq<Row>, overlay: int -> Row, placeholder: int -> Option<Placement>)
    returns (prepared: seq<Row>, moveUids: set<int>)
    ensures prepared == Prepared(collected, overlay, placeholder)
    ensures moveUids == MoveIds(collected)
  {
    prepared := [];
    moveUids := {};
    for i := 0 to |collected|
      invariant |prepared| == i
      invariant forall k :: 0 <= k < i ==> prepared[k] == PrepareItem(collected[k], overlay, placeholder)
      invariant moveUids == MoveIds(collected[..i])
    {
      var item := collected[i];
      if item.state == MovePlaceholder {
        moveUids := moveUids + {item.moveId};
      }
      var version := overlay(item.uid);
      if item.state == MovePlaceholder || version.state == MovePointer {
        version := Relocate(version, placeholder(version.uid));
      }
      prepared := prepared + [version];
      assert collected[..i + 1][..i] == collected[..i];
    }
    assert collected[..|collected|] == collected;
  }

  /** In a workspace, second loop: the records moved away are dropped. */
  method DropMovedItems(prepared: seq<Row>, moveUids: set<int>) returns (items: seq<Row>)
    ensures items == DropMoved(prepared, moveUids)
  {
    items := [];
    for i := 0 to |prepared|
      invariant items == DropMoved(prepared[..i], moveUids)
    {
      if !(prepared[i].uid in moveUids && !prepared[i].movePlh) {
        items := items + [prepared[i]];
      }
      assert prepared[..i + 1][..i] == prepared[..i];
    }
    assert prepared[..|prepared|] == prepared;
  }

  /** Without a workspace: the records whose live version is not deleted or new. */
  method KeepLiveItems(collected: seq<Row>, overlay: int -> Row) returns (items: seq<Row>)
    ensures items == KeepLive(collected, overlay)
  {
    items := [];
    for i := 0 to |collected|
      invariant items == KeepLive(collected[..i], overlay)
    {
      var version := overlay(collected[i].uid);
      if version.state <= 0 {
        items := items + [collected[i]];
      }
      assert collected[..i + 1][..i] == collected[..i];
    }
    assert collected[..|collected|] == collected;
  }

  /** In a workspace, no kept record carries a moved-away uid unless it is the move placeholder. */
  lemma WorkspaceDropsMoveOrigins(collected: seq<Row>, workspace: int, overlay: int -> Row, placeholder: int -> Option<Placement>, r: Row)
    requires workspace > 0
    requires r in WorkspaceView(collected, workspace, overlay, placeholder)
    ensures r.movePlh || forall i :: 0 <= i < |collected| && collected[i].state == MovePlaceholder ==> collected[i].moveId != r.uid
    ensures exists i :: 0 <= i < |collected| && r == PrepareItem(collected[i], overlay, placeholder)
  {
  }

  /** Without a workspace, the kept records are the unmodified originals whose overlay is live, in their order. */
  lemma LiveViewKeepsOriginals(collected: seq<Row>, workspace: int, overlay: int -> Row, placeholder: int -> Option<Placement>)
    requires workspace <= 0
    ensures IsSubsequence(WorkspaceView(collected, workspace, overlay, placeholder), collected)
    ensures forall r :: r in WorkspaceView(collected, workspace, overlay, placeholder) <==> r in collected && overlay(r.uid).state <= 0
    ensures forall r ::
              multiset(WorkspaceView(collected, workspace, overlay, placeholder))[r] == if overlay(r.uid).state <= 0 then multiset(collected)[r] else 0
  {
  }
}
