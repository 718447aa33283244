/**
 * Loading the document at start-up. The browser's storage and the JSON
 * parser are outside the model; what they hand back is one of four
 * outcomes, and the loader's two fallbacks differ.
 */
module Storage {
  import opened Document

  /** What reading and parsing the stored key yields. */
  datatype Stored =
    | Absent                 // nothing stored: `getItem` gives null, which parses to null
    | ParsedFalsy            // the stored text parses to another falsy value (false, 0, "")
    | Unparsable             // `JSON.parse` throws
    | Saved(pages: seq<Page>) // the stored text parses to an array of pages

  const WelcomeTitle := "Новая страница"
  const WelcomeText := "Добро пожаловать в Notion-lite"

  /** The page shown on a first start; its id is the time stamp given. */
  function WelcomePage(stamp: string): (r: Page)
    ensures r.id == stamp && r.title == NewPageTitle
    ensures r.blocks == [Block("b1", H1, WelcomeText)]
    ensures WellFormed([r])
  {
    Page(stamp, WelcomeTitle, [Block("b1", H1, WelcomeText)])
  }

  /**
   * The initial document: a parsed array as it is, the welcome page when
   * nothing (or a falsy value) was stored, and no pages at all when parsing
   * fails.
   */
  function InitialPages(stored: Stored, stamp: string): (r: seq<Page>)
    ensures stored.Saved? ==> r == stored.pages
    ensures stored.Absent? || stored.ParsedFalsy? ==> r == [WelcomePage(stamp)] && WellFormed(r)
    ensures stored.Unparsable? ==> r == []
  {
    match stored
    case Saved(pages) => pages
    case Unparsable => []
    case _ => [WelcomePage(stamp)]
  }
}
