/** `get_product_data(url)` in main.py: the first, reduced BeautifulSoup
    extractor. It reads the six scalar fields and the two prices and stops
    there: no images, no characteristics, no promoted screen keys. */
module Draft {
  import opened Base
  import opened Schema
  import opened Dom
  import opened Extraction
  import opened ProductPage

  /** The dict main.py builds from a fetched page, keys in its order, with
      each selector taken as a lookup that compiles. */
  function DraftData(d: Document): (r: Outcome<Info>)
    ensures r.Raised? <==> (|d.prices| >= 1 && d.prices[0].text.None?) || (|d.prices| >= 2 && d.prices[1].text.None?)
    ensures r.Raised? ==> r.exc == AttributeError
  {
    match PriceAt(d.prices, 0)
    case Raised(e) => Raised(e)
    case Returned(regular) =>
      match PriceAt(d.prices, 1)
      case Raised(e) => Raised(e)
      case Returned(sale) =>
        Returned(DraftAssemble(ReadScalars(d.single), regular, sale))
  }

  function DraftAssemble(r: Read, regular: Value, sale: Value): Info {
    map[][Name := r.name][Color := r.color][BuiltinMemory := r.memory][Manufacturer := r.manufacturer]
         [PriceRegular := regular][PriceSale := sale][Sku := r.sku][ReviewsCount := r.reviews]
  }

  /** The draft's dict is the full extractor's fields without `images`. */
  lemma DraftAssembleIsAssembleWithoutImages(r: Read, regular: Value, sale: Value, images: Value)
    ensures DraftAssemble(r, regular, sale) == Assemble(r, regular, sale, images) - {Images}
  {
  }

  /** The draft raises exactly when the BeautifulSoup extractor's fields do,
      and otherwise returns those fields without `images`. */
  lemma DraftIsFieldsWithoutImages(d: Document)
    ensures DraftData(d).Raised? == Fields(Soup, d.single, d.prices, d.images).Raised?
    ensures DraftData(d).Raised? ==> DraftData(d).exc == Fields(Soup, d.single, d.prices, d.images).exc
    ensures DraftData(d).Returned? ==>
              DraftData(d).value == Fields(Soup, d.single, d.prices, d.images).value - {Images}
  {
    if PriceAt(d.prices, 0).Returned? && PriceAt(d.prices, 1).Returned? {
      DraftAssembleIsAssembleWithoutImages(ReadScalars(d.single), PriceAt(d.prices, 0).value,
                                           PriceAt(d.prices, 1).value, Srcs(SrcsOf(d.images)));
    }
  }

  /** The result holds exactly the eight keys main.py writes; every scalar is
      the stripped text of its node or None, and the prices split as in the
      full extractor. */
  lemma DraftKeysAndValues(d: Document)
    requires DraftData(d).Returned?
    ensures var info := DraftData(d).value;
            && info.Keys == {Name, Color, BuiltinMemory, Manufacturer, PriceRegular, PriceSale, Sku, ReviewsCount}
            && (forall k :: k in TextFields ==> info[k] == TextOf(d.single, k))
            && info[PriceRegular] == (if |d.prices| >= 1 then Str(Strip(d.prices[0].text.value)) else Null)
            && info[PriceSale] == (if |d.prices| >= 2 then Str(Strip(d.prices[1].text.value)) else Null)
  {
    DraftIsFieldsWithoutImages(d);
    FieldsHoldEachField(Soup, d.single, d.prices, d.images);
  }

  lemma DraftAssembleCleared(r: Read, regular: Value, sale: Value, k: Key)
    requires k in TextFields
    ensures DraftAssemble(Cleared(r, k), regular, sale) == DraftAssemble(r, regular, sale)[k := Null]
  {
  }

  /** A field whose selector stops matching becomes None and nothing else in
      the dict changes. */
  lemma DraftFieldsIndependent(d: Document, k: Key)
    requires k in TextFields && DraftData(d).Returned?
    ensures DraftData(d.(single := d.single - {k})) == Returned(DraftData(d).value[k := Null])
  {
    ReadScalarsWithout(d.single, k);
    DraftAssembleCleared(ReadScalars(d.single), PriceAt(d.prices, 0).value, PriceAt(d.prices, 1).value, k);
  }

  // ---------------------------------------------------------------------------
  // The fetch and the selectors main.py passes

  /** The selector strings of main.py's seven `select_one`/`select` calls. */
  datatype Selectors = Selectors(name: string, color: string, memory: string, manufacturer: string,
                                 prices: string, sku: string, reviews: string)

  // main.py's selector strings; the long ones are written in pieces.
  const NameSelector := "h1.main-title"
  const AttributePrefix := "a[title^='"
  const ColorAsWritten := AttributePrefix + "Колір'"
  const MemoryAsWritten := AttributePrefix + "Вбудована пам'"
  const ManufacturerSelector :=
    ".br-pr-chr .br-pr-chr-item" + ":last-of-type > div" + " div:first-of-type" + " span:last-of-type"
  const PricesSelector := ".main-price-block" + " .price-wrapper > span"
  const SkuSelector := ".main-right-block" + " .br-pr-code-val"
  const ReviewsAsWritten := "##"
  // The closed attribute selectors, and the reviews selector of modules/2_get_info.py.
  const ColorClosed := ColorAsWritten + "]"
  const MemoryClosed := MemoryAsWritten + "]"
  const ReviewsClosed := ".reviews-count span"

  /** The selectors as main.py writes them: the color and memory attribute
      selectors are never closed and the reviews selector is a bare `##`. */
  const WrittenSelectors := Selectors(NameSelector, ColorAsWritten, MemoryAsWritten, ManufacturerSelector,
                                      PricesSelector, SkuSelector, ReviewsAsWritten)

  /** The same selectors closed. */
  const ClosedSelectors := Selectors(NameSelector, ColorClosed, MemoryClosed, ManufacturerSelector,
                                     PricesSelector, SkuSelector, ReviewsClosed)

  /** The selectors read before the prices. */
  predicate EarlyRejected(sels: Selectors) {
    Rejected(sels.name) || Rejected(sels.color) || Rejected(sels.memory) ||
    Rejected(sels.manufacturer) || Rejected(sels.prices)
  }

  predicate AllCompile(sels: Selectors) {
    !EarlyRejected(sels) && !Rejected(sels.sku) && !Rejected(sels.reviews)
  }

  /** `soup.select_one(sel).text.strip()` under `except AttributeError`: the
      selector is compiled first, and its syntax error is not caught. */
  function SelectText(single: map<Key, Node>, k: Key, sel: string): (r: Outcome<Value>)
    ensures r.Raised? <==> Rejected(sel)
    ensures r.Raised? ==> r.exc == SelectorSyntaxError
    ensures r.Returned? ==> r.value == TextOf(single, k)
  {
    if Rejected(sel) then Raised(SelectorSyntaxError) else Returned(TextOf(single, k))
  }

  /** main.py's `get_product_data` over the selectors it is given, in its
      order of reads. A failed fetch gives None and never a partial dict; a
      selector the engine refuses raises out of the function, since only
      `AttributeError`, `IndexError` and `RequestException` are caught. */
  method GetProductDataWith(resp: Response, sels: Selectors) returns (r: Outcome<Option<Info>>)
    ensures r == Returned(None) <==> FetchFails(resp)
    ensures !FetchFails(resp) && EarlyRejected(sels) ==> r == Raised(SelectorSyntaxError)
    ensures !FetchFails(resp) && !AllCompile(sels) ==>
              r.Raised? && (r.exc == SelectorSyntaxError || r.exc == AttributeError)
    ensures !FetchFails(resp) && AllCompile(sels) && DraftData(resp.doc).Returned? ==>
              r == Returned(Some(DraftData(resp.doc).value))
    ensures !FetchFails(resp) && AllCompile(sels) && DraftData(resp.doc).Raised? ==>
              r == Raised(DraftData(resp.doc).exc)
  {
    if resp.Unreachable? || RaisesForStatus(resp.statusCode) {
      return Returned(None);
    }
    var d := resp.doc;
    var info: Info := map[];
    var name := SelectText(d.single, Name, sels.name);
    if name.Raised? {
      return Raised(name.exc);
    }
    info := info[Name := name.value];
    var color := SelectText(d.single, Color, sels.color);
    if color.Raised? {
      return Raised(color.exc);
    }
    info := info[Color := color.value];
    var memory := SelectText(d.single, BuiltinMemory, sels.memory);
    if memory.Raised? {
      return Raised(memory.exc);
    }
    info := info[BuiltinMemory := memory.value];
    var manufacturer := SelectText(d.single, Manufacturer, sels.manufacturer);
    if manufacturer.Raised? {
      return Raised(manufacturer.exc);
    }
    info := info[Manufacturer := manufacturer.value];
    if Rejected(sels.prices) {
      return Raised(SelectorSyntaxError);
    }
    var regular := PriceAt(d.prices, 0);
    if regular.Raised? {
      return Raised(regular.exc);
    }
    info := info[PriceRegular := regular.value];
    var sale := PriceAt(d.prices, 1);
    if sale.Raised? {
      return Raised(sale.exc);
    }
    info := info[PriceSale := sale.value];
    var sku := SelectText(d.single, Sku, sels.sku);
    if sku.Raised? {
      return Raised(sku.exc);
    }
    info := info[Sku := sku.value];
    var reviews := SelectText(d.single, ReviewsCount, sels.reviews);
    if reviews.Raised? {
      return Raised(reviews.exc);
    }
    info := info[ReviewsCount := reviews.value];
    return Returned(Some(info));
  }

  lemma NameCompiles()
    ensures !Rejected(NameSelector)
  {
    PlainCompiles(NameSelector);
  }

  lemma ManufacturerCompiles()
    ensures !Rejected(ManufacturerSelector)
  {
    var p1, p2, p3, p4 := ".br-pr-chr .br-pr-chr-item", ":last-of-type > div", " div:first-of-type", " span:last-of-type";
    assert Plain(p1);
    assert Plain(p2);
    assert Plain(p3);
    assert Plain(p4);
    PlainAppend(p1, p2);
    PlainAppend(p1 + p2, p3);
    PlainAppend(p1 + p2 + p3, p4);
    PlainCompiles(ManufacturerSelector);
  }

  lemma PricesAndSkuCompile()
    ensures !Rejected(PricesSelector) && !Rejected(SkuSelector)
  {
    assert Plain(".main-price-block") && Plain(" .price-wrapper > span");
    assert Plain(".main-right-block") && Plain(" .br-pr-code-val");
    PlainAppend(".main-price-block", " .price-wrapper > span");
    PlainAppend(".main-right-block", " .br-pr-code-val");
    PlainCompiles(PricesSelector);
    PlainCompiles(SkuSelector);
  }

  lemma PrefixUnclosed()
    ensures UnclosedBracket(AttributePrefix)
  {
    assert AttributePrefix[1] == '[' && ']' !in AttributePrefix[2..];
  }

  lemma ColorAsWrittenRejected()
    ensures UnclosedBracket(ColorAsWritten)
  {
    PrefixUnclosed();
    UnclosedAppend(AttributePrefix, "Колір'");
  }

  lemma MemoryAsWrittenRejected()
    ensures UnclosedBracket(MemoryAsWritten)
  {
    PrefixUnclosed();
    UnclosedAppend(AttributePrefix, "Вбудована пам'");
  }

  lemma ReviewsAsWrittenRejected()
    ensures EmptyId(ReviewsAsWritten)
  {
    assert ReviewsAsWritten[0] == '#' && !IdentChar(ReviewsAsWritten[1]);
  }

  /** The name selector compiles, and the color, memory and reviews selectors
      as written do not. */
  lemma WrittenSelectorsRejected()
    ensures !Rejected(WrittenSelectors.name)
    ensures Rejected(WrittenSelectors.color) && Rejected(WrittenSelectors.memory)
    ensures Rejected(WrittenSelectors.reviews)
  {
    NameCompiles();
    ColorAsWrittenRejected();
    MemoryAsWrittenRejected();
    ReviewsAsWrittenRejected();
  }

  /** A `]` at the end and no `#`: both malformations are absent. */
  lemma ClosedAttributeCompiles(sel: string)
    requires |sel| > 0 && sel[|sel| - 1] == ']' && '#' !in sel
    ensures !Rejected(sel)
  {
    ClosingBracketLast(sel);
    forall i | 0 <= i < |sel|
      ensures sel[i] != '#'
    {
      assert sel[i] in sel;
    }
  }

  lemma ClosedAttributesCompile()
    ensures !Rejected(ColorClosed) && !Rejected(MemoryClosed)
  {
    assert '#' !in ColorClosed && '#' !in MemoryClosed;
    ClosedAttributeCompiles(ColorClosed);
    ClosedAttributeCompiles(MemoryClosed);
  }

  lemma ReviewsClosedCompiles()
    ensures !Rejected(ReviewsClosed)
  {
    PlainCompiles(ReviewsClosed);
  }

  /** Every closed selector is free of both malformations. */
  lemma ClosedSelectorsCompile()
    ensures AllCompile(ClosedSelectors)
  {
    NameCompiles();
    ManufacturerCompiles();
    PricesAndSkuCompile();
    ClosedAttributesCompile();
    ReviewsClosedCompiles();
  }

  /** main.py as written: a failed fetch gives None, and every fetched page
      raises at the color selector, after the name is read and before any
      dict is returned. */
  method GetProductData(resp: Response) returns (r: Outcome<Option<Info>>)
    ensures r == Returned(None) <==> FetchFails(resp)
    ensures !FetchFails(resp) ==> r == Raised(SelectorSyntaxError)
  {
    WrittenSelectorsRejected();
    r := GetProductDataWith(resp, WrittenSelectors);
  }

  /** main.py with its selectors closed: a failed fetch gives None, and a
      fetched page gives the draft's dict or its price error. */
  method GetProductDataClosed(resp: Response) returns (r: Outcome<Option<Info>>)
    ensures r == Returned(None) <==> FetchFails(resp)
    ensures !FetchFails(resp) && DraftData(resp.doc).Returned? ==> r == Returned(Some(DraftData(resp.doc).value))
    ensures !FetchFails(resp) && DraftData(resp.doc).Raised? ==> r == Raised(DraftData(resp.doc).exc)
  {
    ClosedSelectorsCompile();
    r := GetProductDataWith(resp, ClosedSelectors);
  }
}
