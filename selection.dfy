/**
 * The transient active-page selection. `activeId` holds JavaScript's `null`
 * (None) or a string; like the component, these functions treat the empty
 * string as falsy (`x || null`, `!activeId`).
 */
module Selection {
  import opened Wrappers
  import opened Seqs
  import opened Document

  /** `id || null`. */
  function OrNull(id: string): (r: Option<string>)
    ensures r.None? <==> id == ""
    ensures r.Some? ==> r.value == id
  {
    if id == "" then None else Some(id)
  }

  /** `!activeId`. */
  predicate Falsy(activeId: Option<string>)
    ensures Falsy(activeId) <==> OrNull(activeId.GetOr("")).None?
  {
    activeId.None? || activeId.value == ""
  }

  /** `pages[0]?.id || null`. */
  function FirstIdOrNull(pages: seq<Page>): (r: Option<string>)
    ensures !Falsy(r) <==> |pages| > 0 && pages[0].id != ""
    ensures r.Some? ==> |pages| > 0 && r == Some(pages[0].id)
    ensures r.None? <==> pages == [] || pages[0].id == ""
  {
    if pages == [] then None else OrNull(pages[0].id)
  }

  /** A truthy `activeId` names a page that exists. */
  predicate ActiveResolves(pages: seq<Page>, activeId: Option<string>) {
    !Falsy(activeId) ==> HasPage(pages, activeId.value)
  }

  /** `pages.find(p => p.id === activeId) || null`: the first page with that id. */
  function FindPage(pages: seq<Page>, activeId: Option<string>): (r: Option<Page>)
    ensures r.Some? <==> activeId.Some? && HasPage(pages, activeId.value)
    ensures r.Some? ==> r.value in pages && r.value.id == activeId.value
  {
    if activeId.None? || pages == [] then None
    else if pages[0].id == activeId.value then Some(pages[0])
    else
      var r := FindPage(pages[1..], activeId);
      assert HasPage(pages, activeId.value) ==> HasPage(pages[1..], activeId.value) by {
        if HasPage(pages, activeId.value) {
          var i :| 0 <= i < |pages| && PageId(pages[i]) == activeId.value;
          assert PageId(pages[1..][i - 1]) == activeId.value;
        }
      }
      assert HasPage(pages[1..], activeId.value) ==> HasPage(pages, activeId.value) by {
        if HasPage(pages[1..], activeId.value) {
          var i :| 0 <= i < |pages[1..]| && PageId(pages[1..][i]) == activeId.value;
          assert PageId(pages[i + 1]) == activeId.value;
        }
      }
      r
  }

  /** `find` returns the first match: a page whose id no earlier page has is the one found. */
  lemma {:induction false} FindPageFirst(pages: seq<Page>, k: nat)
    requires k < |pages|
    requires forall j :: 0 <= j < k ==> pages[j].id != pages[k].id
    ensures FindPage(pages, Some(pages[k].id)) == Some(pages[k])
  {
    if k > 0 {
      assert pages[0].id != pages[k].id;
      FindPageFirst(pages[1..], k - 1);
    }
  }

  /** With unique page ids, looking up any page's id finds that page. */
  lemma FindPageUnique(pages: seq<Page>, k: nat)
    requires Distinct(pages, PageId) && k < |pages|
    ensures FindPage(pages, Some(pages[k].id)) == Some(pages[k])
  {
  }

  /** The effect after each update: with no active page and some pages, the first becomes active. */
  function RepairedActive(pages: seq<Page>, activeId: Option<string>): (r: Option<string>)
    ensures Falsy(activeId) && |pages| > 0 ==> r == Some(pages[0].id)
    ensures !(Falsy(activeId) && |pages| > 0) ==> r == activeId
  {
    if Falsy(activeId) && |pages| > 0 then Some(pages[0].id) else activeId
  }

  /** After the repair, a resolving selection over a non-empty document shows a page. */
  lemma RepairShowsPage(pages: seq<Page>, activeId: Option<string>)
    requires ActiveResolves(pages, activeId) && |pages| > 0
    ensures FindPage(pages, RepairedActive(pages, activeId)).Some?
    ensures Falsy(activeId) ==> FindPage(pages, RepairedActive(pages, activeId)) == Some(pages[0])
  {
  }

  /**
   * The selection after `deletePage(id)`, given the remaining pages `next`:
   * if the deleted page was active, the first remaining page's id or null.
   */
  function ActiveAfterDelete(activeId: Option<string>, id: string, next: seq<Page>): (r: Option<string>)
    ensures activeId != Some(id) ==> r == activeId
    ensures activeId == Some(id) ==> r == FirstIdOrNull(next)
  {
    if activeId == Some(id) then FirstIdOrNull(next) else activeId
  }

  /** After `deletePage(id)` the selection never names the deleted page and still resolves. */
  lemma DeleteKeepsSelection(pages: seq<Page>, activeId: Option<string>, id: string)
    requires ActiveResolves(pages, activeId)
    ensures var next := DeletePage(pages, id);
      var r := ActiveAfterDelete(activeId, id, next);
      r != Some(id) && ActiveResolves(next, r)
  {
  }

  /** Deleting the active page selects the new first page, which is then the page shown. */
  lemma DeleteActiveShowsFirst(pages: seq<Page>, id: string)
    ensures var next := DeletePage(pages, id);
      FindPage(next, ActiveAfterDelete(Some(id), id, next))
        == if next == [] || next[0].id == "" then None else Some(next[0])
  {
  }

  /** Two page sequences with the same ids position by position. */
  predicate SameIds(pages: seq<Page>, r: seq<Page>) {
    |r| == |pages| && forall i :: 0 <= i < |r| ==> r[i].id == pages[i].id
  }

  /** An update that keeps every page id keeps a resolving selection resolving. */
  lemma SameIdsKeepSelection(pages: seq<Page>, r: seq<Page>, activeId: Option<string>)
    requires SameIds(pages, r) && ActiveResolves(pages, activeId)
    ensures ActiveResolves(r, activeId)
  {
  }
}
