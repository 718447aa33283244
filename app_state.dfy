/**
 * The editor component's state: the page sequence and the active page id,
 * each operation applied as one atomic update of both.
 */
module AppState {
  import opened Wrappers
  import opened Seqs
  import opened Document
  import opened Selection
  import Storage

  class App {
    var pages: seq<Page>
    var activeId: Option<string>

    /** A truthy active id always names an existing page. */
    predicate Valid()
      reads this
    {
      ActiveResolves(pages, activeId)
    }

    /** The page the main view shows. */
    function Active(): (r: Option<Page>)
      reads this
      ensures r.Some? ==> r.value in pages && Some(r.value.id) == activeId
      ensures r.None? ==> activeId.None? || !HasPage(pages, activeId.value)
    {
      FindPage(pages, activeId)
    }

    /** Start-up: the loaded pages, and the first page's id (or null) as the selection. */
    constructor (stored: Storage.Stored, stamp: string)
      ensures pages == Storage.InitialPages(stored, stamp)
      ensures activeId == FirstIdOrNull(pages)
      ensures Valid()
    {
      pages := Storage.InitialPages(stored, stamp);
      activeId := FirstIdOrNull(Storage.InitialPages(stored, stamp));
      new;
      if !Falsy(activeId) {
        assert PageId(pages[0]) == activeId.value;
      }
    }

    /** The effect run after an update: with no selection and some pages, select the first. */
    method Settle()
      requires Valid()
      modifies this
      ensures pages == old(pages)
      ensures activeId == RepairedActive(old(pages), old(activeId))
      ensures Valid()
      ensures |pages| > 0 ==> Active().Some?
    {
      if |pages| > 0 {
        RepairShowsPage(pages, activeId);
      }
      activeId := RepairedActive(pages, activeId);
      if !Falsy(activeId) {
        assert PageId(pages[0]) == activeId.value || HasPage(pages, activeId.value);
      }
    }

    /** Clicking a page in the sidebar selects it. */
    method Select(id: string)
      requires Valid() && HasPage(pages, id)
      modifies this
      ensures pages == old(pages) && activeId == Some(id)
      ensures Valid() && Active().Some? && Active().value.id == id
    {
      activeId := Some(id);
    }

    /** `createPage`: a new page in front of the others, and it becomes active. */
    method CreatePage(pageStamp: string, blockStamp: string)
      requires Valid()
      modifies this
      ensures pages == [NewPage(pageStamp, blockStamp)] + old(pages)
      ensures pages[0].title == NewPageTitle && pages[0].blocks == [Block("b" + blockStamp, P, NewPageText)]
      ensures activeId == Some(pageStamp)
      ensures Valid() && Active() == Some(pages[0])
    {
      pages := [NewPage(pageStamp, blockStamp)] + pages;
      activeId := Some(pageStamp);
      assert PageId(pages[0]) == pageStamp;
      FindPageFirst(pages, 0);
    }

    /** `deletePage`: the page goes; if it was active, the new first page (or null) is. */
    method DeletePage(id: string)
      requires Valid()
      modifies this
      ensures pages == Document.DeletePage(old(pages), id)
      ensures activeId == ActiveAfterDelete(old(activeId), id, pages)
      ensures old(activeId) != Some(id) ==> activeId == old(activeId)
      ensures activeId != Some(id)
      ensures Valid()
    {
      DeleteKeepsSelection(pages, activeId, id);
      var next := Document.DeletePage(pages, id);
      pages := next;
      if activeId == Some(id) {
        activeId := FirstIdOrNull(next);
      }
    }

    /** `renamePage`. */
    method RenamePage(id: string, title: string)
      requires Valid()
      modifies this
      ensures pages == Document.RenamePage(old(pages), id, title)
      ensures activeId == old(activeId)
      ensures Valid()
    {
      var next := Document.RenamePage(pages, id, title);
      SameIdsKeepSelection(pages, next, activeId);
      pages := next;
    }

    /** `updateBlock`. */
    method UpdateBlock(pageId: string, blockId: string, patch: Patch)
      requires Valid()
      modifies this
      ensures pages == Document.UpdateBlock(old(pages), pageId, blockId, patch)
      ensures activeId == old(activeId)
      ensures Valid()
    {
      var next := Document.UpdateBlock(pages, pageId, blockId, patch);
      SameIdsKeepSelection(pages, next, activeId);
      pages := next;
    }

    /** `addBlock`. */
    method AddBlock(pageId: string, kind: Kind, stamp: string)
      requires Valid()
      modifies this
      ensures pages == Document.AddBlock(old(pages), pageId, kind, stamp)
      ensures activeId == old(activeId)
      ensures Valid()
    {
      var next := Document.AddBlock(pages, pageId, kind, stamp);
      SameIdsKeepSelection(pages, next, activeId);
      pages := next;
    }

    /** `moveBlock`. */
    method MoveBlock(pageId: string, idx: int, dir: int)
      requires Valid() && CanMove(pages, pageId, idx, dir)
      modifies this
      ensures pages == Document.MoveBlock(old(pages), pageId, idx, dir)
      ensures activeId == old(activeId)
      ensures Valid()
    {
      var next := Document.MoveBlock(pages, pageId, idx, dir);
      SameIdsKeepSelection(pages, next, activeId);
      pages := next;
    }

    /** `deleteBlock`. */
    method DeleteBlock(pageId: string, blockId: string)
      requires Valid()
      modifies this
      ensures pages == Document.DeleteBlock(old(pages), pageId, blockId)
      ensures activeId == old(activeId)
      ensures Valid()
    {
      var next := Document.DeleteBlock(pages, pageId, blockId);
      SameIdsKeepSelection(pages, next, activeId);
      pages := next;
    }
  }
}
