# Notion-lite document store in Dafny

This project models the document store of Notion-lite, a single-page note editor
written as one React component (`App.jsx`). The editor keeps an ordered sequence of
pages. Each page has an id, a title and an ordered list of blocks. A block has an
id, a type (`h1`, `p` or `todo`) and a text. Beside the pages the component keeps a
transient `activeId`, the page the main view shows.

The model has eight modules:

- `Wrappers`: `Option`, standing for JavaScript's `null`-or-value.
- `Seqs`: the array primitives the store is built from, on sequences. These are a
  conditional `map`, `filter`, the two `splice` calls of a block move (with
  JavaScript's handling of a negative start), and uniqueness of a key.
- `TodoText`: the to-do convention. A to-do's checked state is the `☑`/`☐`
  character in front of its text. The module has the checked test, the marker
  strip, the checkbox handler and the label editor's handler.
- `Document`: the page and block datatypes and one pure function per update
  (`renamePage`, `deletePage`, `updateBlock`, `addBlock`, `moveBlock`,
  `deleteBlock`). Each is written as the component's `map`/`filter`/spread
  expression.
- `Selection`: the active page. It covers the lookup with `find`, the effect that
  selects the first page, and the selection after a page is deleted. It also
  covers JavaScript's falsiness of `null` and `""` as used by `x || null` and
  `!activeId`.
- `DocumentProps`: invariants and inverse properties of the updates. Unique ids
  are preserved. Deleting a fresh page or block undoes its creation. The to-do
  handlers act through `updateBlock`.
- `Storage`: the start-up load. The stored value is modelled abstractly as one of
  four outcomes.
- `AppState`: class `App`, with fields `pages` and `activeId` and one method per
  operation. Each method applies its update atomically. Its contract gives the
  new state in terms of the `Document`/`Selection` functions. The class invariant
  `Valid()` says a truthy `activeId` always names an existing page. Every method
  keeps it.

Time stamps from `Date.now()` are parameters (`pageStamp`, `blockStamp`, `stamp`).
A new block's id is `"b"` followed by the stamp, as in the source. The state methods
do not require the stamps to be fresh, because the source does not check.
Freshness appears only as a hypothesis of the lemmas that preserve unique ids.

Behaviour of the code that the model keeps:

- A stored value that fails to parse gives no pages; only a missing or falsy stored
  value gives the welcome page (App.jsx:7-11, `Storage.InitialPages`).
- Unique ids are not enforced by any operation. They are a property that the
  operations preserve when the stamps are fresh and a patch leaves the id alone
  (`DocumentProps.*KeepsWellFormed`).
- `moveBlock` takes any integer `dir`. For `dir` other than ±1 it moves the block
  rather than swapping it (`Seqs.Move`, `Seqs.MoveBack`). A negative index counts
  from the end, as `splice` does (`Seqs.MoveNegativeIndexRotates`).
- An empty-string page id counts as "no id" where the code writes `x || null` or
  `!activeId` (`Selection.OrNull`, `Selection.Falsy`).

## Model

| member | source | states |
|---|---|---|
| Document.Merge | App.jsx:40 | each field present in the patch wins; each absent field keeps the block's value; an empty patch leaves the block unchanged |
| Document.NewPage | App.jsx:22 | the new page carries the stamp as id and the title `Новая страница`, with one `p` block `Пустая страница`; its ids are unique |
| Document.DefaultText | App.jsx:45 | the default text carries a to-do marker exactly for a to-do, and that marker is unchecked |
| Document.NewBlock | App.jsx:45 | the new block's id is `b` followed by the stamp, it keeps the given type, and its text is marked exactly when it is a to-do |
| Document.RenamePage | App.jsx:33-35 | same length and ids and blocks position by position; exactly the pages with the given id take the new title; an absent id leaves the document unchanged |
| Document.DeletePage | App.jsx:27-28 | the result holds exactly the pages whose id differs; no page with that id remains; an absent id leaves the document unchanged |
| Document.UpdateBlock | App.jsx:37-42 | page ids, titles and block counts unchanged; exactly the blocks with the given id in the pages with the given id become the patch merged over them; every other block is unchanged; a missing page or block leaves the document unchanged |
| Document.AddBlock | App.jsx:44-47 | exactly the matching pages get the new block appended at the end; ids and titles unchanged; an absent page leaves the document unchanged |
| Document.MoveBlock | App.jsx:49-59 | exactly the matching pages have their block list moved; ids and titles unchanged; an absent page leaves the document unchanged |
| Document.DeleteBlock | App.jsx:61-63 | in the matching pages the blocks are filtered on a different id; other pages identical; a missing block leaves the document unchanged |
| Seqs.MapWhere | App.jsx:34 | a conditional `map` keeps the length; it replaces exactly the hit elements by their image; with no hit it is the identity |
| Seqs.Filter | App.jsx:28 | `filter` keeps exactly the elements satisfying the predicate; if all satisfy it, the result is the input |
| Seqs.FilterConcat | App.jsx:62 | filtering distributes over concatenation, so the survivors keep their relative order |
| Seqs.FilterDropsOne | App.jsx:28 | filtering out one rejected element between kept ones removes exactly that element |
| Seqs.SpliceStart | App.jsx:55 | the start position `splice` uses: a negative start counts from the end; the result is clamped to the length |
| Seqs.Remove | App.jsx:55 | `splice(k, 1)` leaves the elements before `k` in place and shifts the later ones down by one |
| Seqs.Insert | App.jsx:56 | `splice(k, 0, x)` puts `x` at `k` and shifts the later elements up by one |
| Seqs.Move | App.jsx:52-57 | the length is kept; a target outside `[0, length)` returns the list unchanged |
| Seqs.MoveSwapsNeighbours | App.jsx:53-57 | with `0 <= idx < length`, `dir` of ±1 and an in-range target, the move swaps positions `idx` and `idx + dir`; all other positions are unchanged |
| Seqs.MovePermutes | App.jsx:55-56 | a move is a permutation: the multiset of elements is unchanged |
| Seqs.MoveBack | App.jsx:112-113 | moving a block to an in-range target and then back in the opposite direction restores the list |
| Seqs.MoveKeepsDistinct | App.jsx:55-56 | a move keeps keys distinct |
| Seqs.MoveNegativeIndexRotates | App.jsx:55 | for every non-empty list, index -1 with direction +1 moves the last element to the front (a rotation, not a swap) |
| Seqs.FilterKeepsDistinct | App.jsx:28 | filtering keeps keys distinct |
| TodoText.Prefix | App.jsx:148 | the marker written for a state is two characters ending in a space, and it reads back as that checked state |
| TodoText.IsChecked | App.jsx:143 | for a marked text, checked exactly when its marker is `☑ `; a checked text never starts with `☐` |
| TodoText.HasMarker | App.jsx:151 | the marker test holds exactly when the text starts with `☑ ` or `☐ ` |
| TodoText.Label | App.jsx:151 | a text with a full marker is that marker followed by the label; any other text is its own label |
| TodoText.WithMarker | App.jsx:142 | a label written behind a state's marker reads back that checked state and that label |
| TodoText.Toggled | App.jsx:142 | the checkbox handler's text reads as checked exactly when the checkbox is, and it keeps the label |
| TodoText.Relabelled | App.jsx:148 | the label editor's text keeps the checked state and carries the edited label |
| TodoText.MarkerRoundTrip | App.jsx:142-151 | a text with a full marker is rebuilt from its checked state and its label |
| TodoText.ToggleTwice | App.jsx:142-143 | clicking a marked to-do's checkbox twice restores its text |
| TodoText.ToggleTwiceNeedsMarker | App.jsx:142-143 | the text `☑` without a space does not survive two clicks: it becomes `☑ ☑` |
| TodoText.RelabelWithShownLabel | App.jsx:148-151 | committing the label as displayed leaves a marked to-do unchanged |
| Selection.Falsy | App.jsx:18 | the selection is falsy exactly when the fallback to null would give null |
| Selection.OrNull | App.jsx:30 | the fallback to null gives null exactly for the empty string, and otherwise the id |
| Selection.FirstIdOrNull | App.jsx:14 | null exactly when there is no first page or its id is empty; otherwise the first page's id |
| Selection.FindPage | App.jsx:65 | a page is found exactly when some page has the active id; the page found is in the document and has that id |
| Selection.FindPageFirst | App.jsx:65 | `find` returns the first page with the id |
| Selection.FindPageUnique | App.jsx:65 | with unique page ids, looking up any page's id finds that page |
| Selection.RepairedActive | App.jsx:18 | with no truthy selection and some pages, the first page's id is selected; otherwise the selection is unchanged |
| Selection.RepairShowsPage | App.jsx:18 | after the repair, a document with pages always shows a page, the first one if nothing was selected |
| Selection.ActiveAfterDelete | App.jsx:30 | the selection is unchanged unless it was the deleted id; then it is the first remaining page's id or null |
| Selection.DeleteKeepsSelection | App.jsx:27-30 | after `deletePage(id)` the selection never names `id` and still names an existing page if truthy |
| Selection.DeleteActiveShowsFirst | App.jsx:30 | deleting the active page shows the new first page, or nothing if none remains or its id is empty |
| Selection.SameIdsKeepSelection | App.jsx:33-63 | an update that keeps every page id keeps a valid selection valid |
| DocumentProps.SameIdsKeepDistinct | App.jsx:33-63 | an update that keeps every page id keeps page ids unique |
| DocumentProps.NewTodoIsUnchecked | App.jsx:45 | a new to-do block's text is a full unchecked marker with the label `Задача` |
| DocumentProps.CreateKeepsWellFormed | App.jsx:22-23 | with a fresh page id, creating a page keeps page ids and block ids unique |
| DocumentProps.DeletePageKeepsWellFormed | App.jsx:28 | deleting a page keeps ids unique |
| DocumentProps.RenameKeepsWellFormed | App.jsx:34 | renaming keeps ids unique |
| DocumentProps.UpdateBlockKeepsWellFormed | App.jsx:37-42 | a patch that leaves the block id alone keeps ids unique |
| DocumentProps.AddBlockKeepsWellFormed | App.jsx:44-46 | with a block id not yet used on the page, adding a block keeps ids unique |
| DocumentProps.MoveBlockKeepsWellFormed | App.jsx:49-58 | moving a block keeps ids unique |
| DocumentProps.DeleteBlockKeepsWellFormed | App.jsx:61-62 | deleting a block keeps ids unique |
| DocumentProps.CreateThenDeletePage | App.jsx:21-30 | deleting a freshly created page gives back the document it was created in |
| DocumentProps.DeletePageRemovesOne | App.jsx:28 | with unique page ids, `deletePage` removes exactly that page and keeps the rest in order |
| DocumentProps.AddThenDeleteBlock | App.jsx:44-62 | deleting a freshly added block gives back the document it was added to |
| DocumentProps.TextPatch | App.jsx:142 | merging a text-only patch into any block changes only its text |
| DocumentProps.ToggleTodoBlock | App.jsx:142 | the checkbox update sets the block's checked state to the checkbox's and keeps its id, type and label |
| DocumentProps.RelabelTodoBlock | App.jsx:148 | the label update keeps the block's id, type and checked state and stores the edited label |
| DocumentProps.AddTodoThenDeleteFirst | App.jsx:44-62 | on a page `p1` with one paragraph `b1`, adding a to-do gives two blocks, the second an unchecked to-do; deleting `b1` then leaves only the to-do |
| Storage.WelcomePage | App.jsx:8 | the welcome page carries the stamp as id and the title `Новая страница`, with one `h1` block `b1`; its ids are unique |
| Storage.InitialPages | App.jsx:5-13 | a parsed array is used as it is; nothing stored (or a falsy value) gives the single welcome page; a parse failure gives no pages |
| AppState.App.Active | App.jsx:65 | the page shown is in the document and carries the active id; none is shown only when no page has it |
| AppState.App.constructor | App.jsx:5-14 | the loaded pages and the first page's id (or null) as the selection; the invariant holds |
| AppState.App.Settle | App.jsx:16-19 | the pages are unchanged and the selection is repaired; afterwards a document with pages shows a page |
| AppState.App.Select | App.jsx:76 | clicking a page selects that page and the view shows it |
| AppState.App.CreatePage | App.jsx:21-25 | one page with title `Новая страница` and one `p` block `Пустая страница` is prepended; the old pages follow in order; the new page is active and shown |
| AppState.App.DeletePage | App.jsx:27-31 | the pages are filtered; a deleted active page is replaced by the first remaining page's id or null; otherwise the selection is untouched; the selection never names the deleted id |
| AppState.App.RenamePage | App.jsx:33-35 | the pages are renamed as `Document.RenamePage` says; the selection is untouched |
| AppState.App.UpdateBlock | App.jsx:37-42 | the pages are updated as `Document.UpdateBlock` says; the selection is untouched |
| AppState.App.AddBlock | App.jsx:44-47 | the pages are updated as `Document.AddBlock` says; the selection is untouched |
| AppState.App.MoveBlock | App.jsx:49-59 | the pages are updated as `Document.MoveBlock` says; the selection is untouched |
| AppState.App.DeleteBlock | App.jsx:61-63 | the pages are updated as `Document.DeleteBlock` says; the selection is untouched |

## Left out

- Rendering, CSS classes and the `contentEditable`/`onBlur`/`onChange` event wiring (App.jsx:67-168) are left out. This is view code. Only the state updates that its handlers call are modelled.
- Saving with `localStorage.setItem` and `JSON.stringify` (App.jsx:17) is left out, because these are foreign browser calls. For the same reason the model does not claim that a save followed by a load gives back the same document.
- Reading with `localStorage.getItem` and `JSON.parse` (App.jsx:7) is foreign. It reaches the model as a `Storage.Stored` outcome. A stored value that parses to something other than an array of pages or a falsy value is not modelled.
- `Date.now()` (App.jsx:8, 22, 45) is a clock. Its values are passed in as stamps; the model does not assume they are unique.
- React's `useState`/`useEffect` scheduling and the batching of `setPages` are left out. Each operation is one atomic update. The effect's selection repair is the separate method `Settle`. `deletePage` reads the current `pages` rather than `prev`, which makes no difference under atomic updates.
- `addBlock`'s default argument `type = 'p'` is not modelled: every call site in the view (App.jsx:101-103) passes a type, so the default is never used.
- Block types are the three the view creates (`h1`, `p`, `todo`). A patch that sets an arbitrary string type, or a field to `undefined`, is not modelled.
- Document.MoveBlock, AppState.App.MoveBlock: the requirement `CanMove` excludes an index past the end of a matching page's block list when the target is in range. There `splice` would insert `undefined`. The view passes indices in range for the page it shows; another page with the same id may be shorter, and that case is excluded.
- `moveBlock` copies the block array and edits the copy with two `splice` calls. The model states these as sequence values (`Seqs.Remove`, `Seqs.Insert`) because the copy is private to the update and never shared.
- The regular expression `/^☐ |^☑ /` is modelled only as the two-prefix test and strip it performs (`TodoText.HasMarker`, `TodoText.Label`).
- Strings are sequences of characters. JavaScript works on UTF-16 code units, but both markers are single code units, so the prefix tests agree.
