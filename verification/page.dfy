/** The data the scraper works on: a parsed document seen through the few
    queries the scripts make of it, the portal's responses, the requests sent
    to it, and the errors the scripts raise. */
module Page {
  import opened Wrappers

  /** An element's attributes; the portal's `name` and `value` attributes are plain strings. */
  type Attrs = map<string, string>

  /** An element of a parsed document, in document order. */
  datatype Element = Element(attrs: Attrs)

  /** A `td`: its text content (`td.text`) and its attributes. */
  datatype Cell = Cell(text: string, attrs: Attrs)

  /** A `tr` of the grid: its serialised markup (`str(tr)`) and its `td`
      descendants in document order (`tr.find_all('td')`; `tr.td` is the first). */
  datatype Row = Row(markup: string, cells: seq<Cell>)

  /** The results grid, `table.grid`, with its `tr` descendants in document order. */
  datatype Table = Table(rows: seq<Row>)

  /** A parsed document: every element in document order (what `soup.find(attrs=…)`
      searches), and the first table of class `grid`, if there is one. */
  datatype Document = Document(elements: seq<Element>, grid: Option<Table>)

  /** One HTTP response: its text, the length of its redirect history, and the
      document that parsing its text yields. */
  datatype Response = Response(text: string, history: nat, doc: Document)

  datatype Verb = Get | Post

  /** One request to the portal's endpoint: its verb, its form data, and whether it
      carries the two partial-postback headers (`X-MicrosoftAjax: Delta=true`,
      `X-Requested-With: XMLHttpRequest`). */
  datatype Request = Request(verb: Verb, data: map<string, string>, ajax: bool)

  /** The two scripts of the repository: `scrape.py` and its later copy `msr.py`. */
  datatype Variant = ScrapePy | MsrPy

  /** The exceptions the scripts let escape. */
  datatype Error =
    | MissingElement(name: string)  // `soup.find(…)` gave None: AttributeError
    | MissingValue(name: string)    // `.attrs['value']` on an element without it: KeyError
    | MissingTable                  // RuntimeError('Missing table')
    | MissingStatus                 // the count regex did not match: AttributeError
    | NoResponse                    // the transport gave no response: a network error
}
