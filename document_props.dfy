/**
 * Properties of the document transformations: each keeps ids unique when
 * its fresh ids are fresh, the creating operations are undone by the
 * deleting ones, and the to-do handlers act through `updateBlock`.
 */
module DocumentProps {
  import opened Wrappers
  import opened Seqs
  import opened Document
  import opened Selection
  import TodoText

  /** Position-wise equal ids keep page ids unique. */
  lemma SameIdsKeepDistinct(pages: seq<Page>, r: seq<Page>)
    requires SameIds(pages, r) && Distinct(pages, PageId)
    ensures Distinct(r, PageId)
  {
  }

  /** The block `addBlock` makes for a to-do is an unchecked to-do labelled "Задача". */
  lemma NewTodoIsUnchecked(stamp: string)
    ensures var t := NewBlock(Todo, stamp).text;
      TodoText.HasMarker(t) && !TodoText.IsChecked(t) && TodoText.Label(t) == "Задача"
  {
    assert NewTodoText == TodoText.WithMarker(false, "Задача");
  }

  // ---- Unique ids are preserved ----

  lemma CreateKeepsWellFormed(pages: seq<Page>, pageStamp: string, blockStamp: string)
    requires WellFormed(pages) && !HasPage(pages, pageStamp)
    ensures WellFormed([NewPage(pageStamp, blockStamp)] + pages)
  {
    PrependKeepsDistinct(NewPage(pageStamp, blockStamp), pages, PageId);
  }

  lemma DeletePageKeepsWellFormed(pages: seq<Page>, id: string)
    requires WellFormed(pages)
    ensures WellFormed(DeletePage(pages, id))
  {
    var r := DeletePage(pages, id);
    FilterKeepsDistinct(pages, (p: Page) => p.id != id, PageId);
    forall i | 0 <= i < |r| ensures Distinct(r[i].blocks, BlockId) {
      assert r[i] in pages;
    }
  }

  lemma RenameKeepsWellFormed(pages: seq<Page>, id: string, title: string)
    requires WellFormed(pages)
    ensures WellFormed(RenamePage(pages, id, title))
  {
  }

  /** A patch that leaves the block id alone (the editor only ever patches `text`). */
  lemma UpdateBlockKeepsWellFormed(pages: seq<Page>, pageId: string, blockId: string, patch: Patch)
    requires WellFormed(pages)
    requires patch.id.None? || patch.id == Some(blockId)
    ensures WellFormed(UpdateBlock(pages, pageId, blockId, patch))
  {
  }

  /** The new block's id "b" + stamp must not be in use on the target page. */
  lemma AddBlockKeepsWellFormed(pages: seq<Page>, pageId: string, kind: Kind, stamp: string)
    requires WellFormed(pages)
    requires forall i :: 0 <= i < |pages| && pages[i].id == pageId ==> !HasKey(pages[i].blocks, BlockId, "b" + stamp)
    ensures WellFormed(AddBlock(pages, pageId, kind, stamp))
  {
    var r := AddBlock(pages, pageId, kind, stamp);
    forall i | 0 <= i < |r| && pages[i].id == pageId ensures Distinct(r[i].blocks, BlockId) {
      AppendKeepsDistinct(pages[i].blocks, NewBlock(kind, stamp), BlockId);
    }
  }

  lemma MoveBlockKeepsWellFormed(pages: seq<Page>, pageId: string, idx: int, dir: int)
    requires WellFormed(pages) && CanMove(pages, pageId, idx, dir)
    ensures WellFormed(MoveBlock(pages, pageId, idx, dir))
  {
    var r := MoveBlock(pages, pageId, idx, dir);
    SameIdsKeepDistinct(pages, r);
    forall i | 0 <= i < |r| ensures Distinct(r[i].blocks, BlockId) {
      if pages[i].id == pageId {
        MoveKeepsDistinct(pages[i].blocks, idx, dir, BlockId);
      }
    }
  }

  lemma DeleteBlockKeepsWellFormed(pages: seq<Page>, pageId: string, blockId: string)
    requires WellFormed(pages)
    ensures WellFormed(DeleteBlock(pages, pageId, blockId))
  {
    var r := DeleteBlock(pages, pageId, blockId);
    SameIdsKeepDistinct(pages, r);
    forall i | 0 <= i < |r| ensures Distinct(r[i].blocks, BlockId) {
      if pages[i].id == pageId {
        FilterKeepsDistinct(pages[i].blocks, (b: Block) => b.id != blockId, BlockId);
      }
    }
  }

  // ---- Creation undone by deletion ----

  /** Deleting a freshly created page gives back the document it was created in. */
  lemma CreateThenDeletePage(pages: seq<Page>, pageStamp: string, blockStamp: string)
    requires !HasPage(pages, pageStamp)
    ensures DeletePage([NewPage(pageStamp, blockStamp)] + pages, pageStamp) == pages
  {
  }

  /** With unique page ids, `deletePage` removes exactly that page and keeps the others in order. */
  lemma DeletePageRemovesOne(pages: seq<Page>, k: nat)
    requires Distinct(pages, PageId) && k < |pages|
    ensures DeletePage(pages, pages[k].id) == pages[..k] + pages[k + 1..]
  {
    var id := pages[k].id;
    var keep := (p: Page) => p.id != id;
    forall i | 0 <= i < k ensures keep(pages[..k][i]) {
      assert PageId(pages[i]) != PageId(pages[k]);
    }
    var tail := pages[k + 1..];
    forall i | 0 <= i < |tail| ensures keep(tail[i]) {
      assert PageId(pages[k]) != PageId(pages[k + 1 + i]);
    }
    FilterDropsOne(pages[..k], pages[k], pages[k + 1..], keep);
    assert pages == pages[..k] + [pages[k]] + pages[k + 1..];
  }

  /** Deleting a freshly added block gives back the document it was added to. */
  lemma AddThenDeleteBlock(pages: seq<Page>, pageId: string, kind: Kind, stamp: string)
    requires !HasBlock(pages, pageId, "b" + stamp)
    ensures DeleteBlock(AddBlock(pages, pageId, kind, stamp), pageId, "b" + stamp) == pages
  {
    var added := AddBlock(pages, pageId, kind, stamp);
    var r := DeleteBlock(added, pageId, "b" + stamp);
    var keep := (b: Block) => b.id != "b" + stamp;
    forall i | 0 <= i < |pages| ensures r[i] == pages[i] {
      if pages[i].id == pageId {
        var bs := pages[i].blocks;
        forall j | 0 <= j < |bs| ensures keep(bs[j]) {
        }
        FilterDropsOne(bs, NewBlock(kind, stamp), [], keep);
        assert bs + [NewBlock(kind, stamp)] + [] == bs + [NewBlock(kind, stamp)];
        assert bs + [] == bs;
      }
    }
  }

  // ---- The to-do handlers as block updates ----

  /** The patch the editor sends for a changed text. */
  function TextPatch(text: string): (r: Patch)
    ensures forall b :: Merge(b, r) == b.(text := text)
  {
    Patch(None, None, Some(text))
  }

  /**
   * The checkbox handler (`updateBlock` with the toggled text) sets the
   * block's checked state to the checkbox's and keeps its id, type and label.
   */
  lemma ToggleTodoBlock(pages: seq<Page>, i: nat, j: nat, checked: bool)
    requires i < |pages| && j < |pages[i].blocks|
    ensures var b := pages[i].blocks[j];
      var r := UpdateBlock(pages, pages[i].id, b.id, TextPatch(TodoText.Toggled(b.text, checked)));
      var b' := r[i].blocks[j];
      b'.id == b.id && b'.kind == b.kind
      && TodoText.IsChecked(b'.text) == checked && TodoText.Label(b'.text) == TodoText.Label(b.text)
  {
  }

  /**
   * The label editor's handler (`updateBlock` with the relabelled text)
   * keeps the block's checked state and stores the edited label.
   */
  lemma RelabelTodoBlock(pages: seq<Page>, i: nat, j: nat, caption: string)
    requires i < |pages| && j < |pages[i].blocks|
    ensures var b := pages[i].blocks[j];
      var r := UpdateBlock(pages, pages[i].id, b.id, TextPatch(TodoText.Relabelled(b.text, caption)));
      var b' := r[i].blocks[j];
      b'.id == b.id && b'.kind == b.kind
      && TodoText.IsChecked(b'.text) == TodoText.IsChecked(b.text) && TodoText.Label(b'.text) == caption
  {
  }

  /**
   * One page "p1" titled "A" with a paragraph "b1": adding a to-do gives two
   * blocks, the second an unchecked to-do; deleting "b1" then leaves only it.
   */
  lemma AddTodoThenDeleteFirst(stamp: string)
    requires "b" + stamp != "b1"
    ensures var doc := [Page("p1", "A", [Block("b1", P, "x")])];
      var added := AddBlock(doc, "p1", Todo, stamp);
      var deleted := DeleteBlock(added, "p1", "b1");
      |added[0].blocks| == 2 && added[0].blocks[1] == Block("b" + stamp, Todo, "☐ Задача")
      && deleted == [Page("p1", "A", [Block("b" + stamp, Todo, "☐ Задача")])]
  {
    var doc := [Page("p1", "A", [Block("b1", P, "x")])];
    var added := AddBlock(doc, "p1", Todo, stamp);
    var bs := added[0].blocks;
    var keep := (b: Block) => b.id != "b1";
    assert bs == [Block("b1", P, "x")] + [Block("b" + stamp, Todo, "☐ Задача")];
    FilterConcat([Block("b1", P, "x")], [Block("b" + stamp, Todo, "☐ Задача")], keep);
    assert Filter([Block("b1", P, "x")], keep) == [] by {
      assert [Block("b1", P, "x")][1..] == [];
    }
    assert Filter([Block("b" + stamp, Todo, "☐ Задача")], keep) == [Block("b" + stamp, Todo, "☐ Задача")];
    var deleted := DeleteBlock(added, "p1", "b1");
    assert deleted[0].blocks == [Block("b" + stamp, Todo, "☐ Задача")];
    assert deleted[0] == Page("p1", "A", [Block("b" + stamp, Todo, "☐ Задача")]);
  }
}
