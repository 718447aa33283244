/**
 * The document: an ordered sequence of pages, each an ordered list of typed
 * blocks, and the pure transformations the editor applies to it. Each
 * transformation rebuilds the page sequence the way the component's
 * `map`/`filter`/spread expressions do.
 */
module Document {
  import opened Wrappers
  import opened Seqs
  import TodoText

  /** The block types the editor creates and renders: "h1", "p" and "todo". */
  datatype Kind = H1 | P | Todo

  datatype Block = Block(id: string, kind: Kind, text: string)

  datatype Page = Page(id: string, title: string, blocks: seq<Block>)

  /** The object spread into a block by `updateBlock`; an absent field leaves the block's own. */
  datatype Patch = Patch(id: Option<string>, kind: Option<Kind>, text: Option<string>)

  const NewPageTitle := "Новая страница"
  const NewPageText := "Пустая страница"
  const NewTodoText := "☐ Задача"
  const NewBlockText := "Новый блок"

  function PageId(p: Page): string { p.id }
  function BlockId(b: Block): string { b.id }

  /** Some page of `pages` has id `id`. */
  predicate HasPage(pages: seq<Page>, id: string) {
    HasKey(pages, PageId, id)
  }

  /** Some page with id `pageId` holds a block with id `blockId`. */
  predicate HasBlock(pages: seq<Page>, pageId: string, blockId: string) {
    exists i, j :: 0 <= i < |pages| && 0 <= j < |pages[i].blocks|
      && pages[i].id == pageId && pages[i].blocks[j].id == blockId
  }

  /** Page ids are unique, and block ids are unique within each page. */
  predicate WellFormed(pages: seq<Page>) {
    Distinct(pages, PageId) && forall i :: 0 <= i < |pages| ==> Distinct(pages[i].blocks, BlockId)
  }

  /** The page `createPage` makes: one paragraph, its id "b" followed by the second time stamp. */
  function NewPage(pageStamp: string, blockStamp: string): (r: Page)
    ensures r.id == pageStamp && r.title == NewPageTitle
    ensures |r.blocks| == 1 && r.blocks[0].kind == P && r.blocks[0].text == NewPageText
    ensures WellFormed([r])
  {
    Page(pageStamp, NewPageTitle, [Block("b" + blockStamp, P, NewPageText)])
  }

  /** The default text of a block that `addBlock` appends. */
  function DefaultText(kind: Kind): (r: string)
    ensures TodoText.HasMarker(r) <==> kind == Todo
    ensures kind == Todo ==> !TodoText.IsChecked(r)
  {
    if kind == Todo then NewTodoText else NewBlockText
  }

  /** The block `addBlock` appends. */
  function NewBlock(kind: Kind, stamp: string): (r: Block)
    ensures r.id == "b" + stamp && r.kind == kind
    ensures TodoText.HasMarker(r.text) <==> kind == Todo
  {
    Block("b" + stamp, kind, DefaultText(kind))
  }

  /** `{ ...b, ...patch }`. */
  function Merge(b: Block, patch: Patch): (r: Block)
    ensures patch.id.Some? ==> r.id == patch.id.value
    ensures patch.id.None? ==> r.id == b.id
    ensures patch.kind.Some? ==> r.kind == patch.kind.value
    ensures patch.kind.None? ==> r.kind == b.kind
    ensures patch.text.Some? ==> r.text == patch.text.value
    ensures patch.text.None? ==> r.text == b.text
    ensures patch == Patch(None, None, None) ==> r == b
  {
    Block(patch.id.GetOr(b.id), patch.kind.GetOr(b.kind), patch.text.GetOr(b.text))
  }

  // ---- Page operations ----

  /** `renamePage`: the matching pages take the new title; nothing else changes. */
  function RenamePage(pages: seq<Page>, id: string, title: string): (r: seq<Page>)
    ensures |r| == |pages|
    ensures forall i :: 0 <= i < |r| ==>
      r[i].id == pages[i].id && r[i].blocks == pages[i].blocks
      && r[i].title == (if pages[i].id == id then title else pages[i].title)
    ensures !HasPage(pages, id) ==> r == pages
  {
    MapWhere(pages, (p: Page) => p.id == id, (p: Page) => p.(title := title))
  }

  /** `deletePage`: exactly the pages with another id remain. */
  function DeletePage(pages: seq<Page>, id: string): (r: seq<Page>)
    ensures |r| <= |pages|
    ensures forall i :: 0 <= i < |r| ==> r[i] in pages && r[i].id != id
    ensures forall i :: 0 <= i < |pages| && pages[i].id != id ==> pages[i] in r
    ensures !HasPage(r, id)
    ensures !HasPage(pages, id) ==> r == pages
  {
    Filter(pages, (p: Page) => p.id != id)
  }

  // ---- Block operations ----

  /** `updateBlock`: in the matching pages, the matching blocks have `patch` merged over them. */
  function UpdateBlock(pages: seq<Page>, pageId: string, blockId: string, patch: Patch): (r: seq<Page>)
    ensures |r| == |pages|
    ensures forall i :: 0 <= i < |r| ==>
      r[i].id == pages[i].id && r[i].title == pages[i].title
      && |r[i].blocks| == |pages[i].blocks|
    ensures forall i, j :: 0 <= i < |r| && 0 <= j < |r[i].blocks| ==>
      r[i].blocks[j] == if pages[i].id == pageId && pages[i].blocks[j].id == blockId
                        then Merge(pages[i].blocks[j], patch) else pages[i].blocks[j]
    ensures !HasBlock(pages, pageId, blockId) ==> r == pages
  {
    var r := MapWhere(pages, (p: Page) => p.id == pageId,
      (p: Page) => p.(blocks := MapWhere(p.blocks, (b: Block) => b.id == blockId, (b: Block) => Merge(b, patch))));
    assert !HasBlock(pages, pageId, blockId) ==> r == pages by {
      if !HasBlock(pages, pageId, blockId) {
        forall i | 0 <= i < |pages| ensures r[i] == pages[i] {
          if pages[i].id == pageId {
            assert forall j :: 0 <= j < |pages[i].blocks| ==> pages[i].blocks[j].id != blockId;
          }
        }
      }
    }
    r
  }

  /** `addBlock`: the matching pages get `NewBlock(kind, stamp)` appended; nothing else changes. */
  function AddBlock(pages: seq<Page>, pageId: string, kind: Kind, stamp: string): (r: seq<Page>)
    ensures |r| == |pages|
    ensures forall i :: 0 <= i < |r| ==>
      r[i].id == pages[i].id && r[i].title == pages[i].title
      && r[i].blocks == if pages[i].id == pageId then pages[i].blocks + [NewBlock(kind, stamp)] else pages[i].blocks
    ensures !HasPage(pages, pageId) ==> r == pages
  {
    var block := NewBlock(kind, stamp);
    MapWhere(pages, (p: Page) => p.id == pageId, (p: Page) => p.(blocks := p.blocks + [block]))
  }

  /** The index arguments of `moveBlock` are meaningful for every page with id `pageId`. */
  predicate CanMove(pages: seq<Page>, pageId: string, idx: int, dir: int) {
    forall i :: 0 <= i < |pages| && pages[i].id == pageId ==> MoveDefined(pages[i].blocks, idx, dir)
  }

  /** `moveBlock`: the matching pages have their block lists moved; nothing else changes. */
  function MoveBlock(pages: seq<Page>, pageId: string, idx: int, dir: int): (r: seq<Page>)
    requires CanMove(pages, pageId, idx, dir)
    ensures |r| == |pages|
    ensures forall i :: 0 <= i < |r| ==>
      r[i].id == pages[i].id && r[i].title == pages[i].title
      && r[i].blocks == if pages[i].id == pageId then Move(pages[i].blocks, idx, dir) else pages[i].blocks
    ensures !HasPage(pages, pageId) ==> r == pages
  {
    MapWhere(pages, (p: Page) => p.id == pageId,
      (p: Page) requires MoveDefined(p.blocks, idx, dir) => p.(blocks := Move(p.blocks, idx, dir)))
  }

  /** `deleteBlock`: in the matching pages exactly the blocks with another id remain. */
  function DeleteBlock(pages: seq<Page>, pageId: string, blockId: string): (r: seq<Page>)
    ensures |r| == |pages|
    ensures forall i :: 0 <= i < |r| ==> r[i].id == pages[i].id && r[i].title == pages[i].title
    ensures forall i :: 0 <= i < |r| && pages[i].id != pageId ==> r[i] == pages[i]
    ensures forall i :: 0 <= i < |r| && pages[i].id == pageId ==>
      r[i].blocks == Filter(pages[i].blocks, (b: Block) => b.id != blockId)
    ensures !HasBlock(pages, pageId, blockId) ==> r == pages
  {
    var keep := (b: Block) => b.id != blockId;
    var r := MapWhere(pages, (p: Page) => p.id == pageId, (p: Page) => p.(blocks := Filter(p.blocks, keep)));
    assert !HasBlock(pages, pageId, blockId) ==> r == pages by {
      if !HasBlock(pages, pageId, blockId) {
        forall i | 0 <= i < |pages| ensures r[i] == pages[i] {
          if pages[i].id == pageId {
            assert forall j :: 0 <= j < |pages[i].blocks| ==> keep(pages[i].blocks[j]);
          }
        }
      }
    }
    r
  }
}
