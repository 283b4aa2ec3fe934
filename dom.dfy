/** The document view that every extractor queries. Selector and XPath
    evaluation are abstract: each single-node lookup is already resolved to its
    first match (or none), each multi-node lookup to its matches in document
    order. The three backends differ only in how they report a missing node or
    a missing text, which the extraction rules below spell out. */
module Dom {
  import opened Base
  import opened Schema

  /** One element: its text content (`None` when the backend gives no text),
      its `src` attribute, and its first `<a>` descendant. */
  datatype Node = Node(text: Option<string>, src: Option<string>, anchor: Option<Node>)

  /** One `.br-pr-chr-item` block: its first `h3`, and for each `div > div` row
      the `span` cells inside it. */
  datatype Group = Group(heading: Option<Node>, rows: seq<seq<Node>>)

  /** A product page. `single` holds the first match of each scalar field's
      selector, and leaves out the fields whose selector matches nothing. */
  datatype Document = Document(
    single: map<Key, Node>,
    prices: seq<Node>,   // `.main-price-block .price-wrapper > span`
    images: seq<Node>,   // the slider images
    groups: seq<Group>)  // the characteristics blocks

  /** BeautifulSoup over a fetched page, Selenium and Playwright over a browser. */
  datatype Backend = Soup | Selenium | Playwright

  /** The first match of field `k`'s selector, if any. */
  function Lookup(single: map<Key, Node>, k: Key): (r: Option<Node>)
    ensures r.Some? <==> k in single
    ensures r.Some? ==> r.value == single[k]
  {
    if k in single then Some(single[k]) else None
  }

  // ---------------------------------------------------------------------------
  // Selector syntax

  /** A `[` with no `]` anywhere after it: an attribute selector left open. */
  predicate UnclosedBracket(sel: string) {
    exists i :: 0 <= i < |sel| && sel[i] == '[' && ']' !in sel[i + 1..]
  }

  /** A character that may continue a CSS identifier. */
  predicate IdentChar(c: char) {
    'a' <= c <= 'z' || 'A' <= c <= 'Z' || '0' <= c <= '9' || c == '-' || c == '_' || c as int >= 0x80
  }

  /** Position `i` lies outside every attribute selector: each `[` before it
      is closed before it. A `#` in a quoted attribute value is inside one. */
  predicate OutsideBrackets(sel: string, i: nat)
    requires i <= |sel|
  {
    forall j :: 0 <= j < i && sel[j] == '[' ==> ']' in sel[j + 1..i]
  }

  /** A `#` outside every attribute selector and not followed by a name: an id
      selector with no id. */
  predicate EmptyId(sel: string) {
    exists i :: 0 <= i < |sel| && sel[i] == '#' && OutsideBrackets(sel, i) && (i + 1 == |sel| || !IdentChar(sel[i + 1]))
  }

  /** Two of the malformations for which BeautifulSoup's selector engine
      (soupsieve) raises when `select` or `select_one` compiles the selector,
      before it looks at the document. Other selectors are taken to compile. */
  predicate Rejected(sel: string) {
    UnclosedBracket(sel) || EmptyId(sel)
  }

  /** A selector with no `[` and no `#` has neither malformation. */
  predicate Plain(sel: string) {
    '[' !in sel && '#' !in sel
  }

  lemma PlainAppend(a: string, b: string)
    requires Plain(a) && Plain(b)
    ensures Plain(a + b)
  {
  }

  lemma PlainCompiles(sel: string)
    requires Plain(sel)
    ensures !Rejected(sel)
  {
    forall i | 0 <= i < |sel|
      ensures sel[i] != '[' && sel[i] != '#'
    {
      assert sel[i] in sel;
    }
  }

  /** Text without `]` after an open `[` leaves it open. */
  lemma UnclosedAppend(a: string, b: string)
    requires UnclosedBracket(a) && ']' !in b
    ensures UnclosedBracket(a + b)
  {
    var i :| 0 <= i < |a| && a[i] == '[' && ']' !in a[i + 1..];
    assert (a + b)[i + 1..] == a[i + 1..] + b;
    assert (a + b)[i] == '[';
  }

  /** A `#` inside a quoted attribute value is not an id selector: the
      engine compiles `a[href^='#']`. */
  lemma HashInAttributeValueCompiles()
    ensures !Rejected("a[href^='#']")
  {
    var sel := "a[href^='#']";
    ClosingBracketLast(sel);
    assert ']' !in sel[2..11];
    forall i | 0 <= i < |sel| && sel[i] == '#'
      ensures !OutsideBrackets(sel, i)
    {
      assert i < 11;
      assert sel[1] == '[' && ']' !in sel[2..i];
    }
  }

  /** A selector that ends with `]` closes every `[` it opens. */
  lemma {:induction false} ClosingBracketLast(sel: string)
    requires |sel| > 0 && sel[|sel| - 1] == ']'
    ensures !UnclosedBracket(sel)
  {
    forall i | 0 <= i < |sel| && sel[i] == '['
      ensures ']' in sel[i + 1..]
    {
      assert sel[i + 1..][|sel| - 1 - (i + 1)] == sel[|sel| - 1];
    }
  }

  /** The outcome of `session.get(url)`: a connection-level `RequestException`,
      or a response with its status code and parsed body. */
  datatype Response = Unreachable | Response(statusCode: nat, doc: Document)

  /** `response.raise_for_status()` raises `HTTPError` for 4xx and 5xx codes. */
  predicate RaisesForStatus(code: nat) {
    400 <= code < 600
  }

  /** Whether the fetch raised a `RequestException` of either kind. */
  predicate FetchFails(resp: Response) {
    resp.Unreachable? || RaisesForStatus(resp.statusCode)
  }
}
