/** The `product_info` dict that the three parsing scripts assemble from one
    product page, and what it promises: each scalar field degrades to None on
    its own, the price split, the image list, the promoted screen keys, and the
    exceptions that escape. BeautifulSoup (modules/2_get_info.py) and Selenium
    (modules/2_get_info_selenium.py, modules/3_get_info_selenium.py) differ only
    in how a characteristic value is read; Playwright
    (modules/4_get_info_playwright.py) also raises where the others give None. */
module ProductPage {
  import opened Base
  import opened Schema
  import opened Dom
  import opened Extraction
  import opened Characteristics

  /** What `save_text_value` (or the script's own `try` block) stores for
      field `k` when its lookup does not raise. */
  function TextOf(single: map<Key, Node>, k: Key): Value {
    NodeText(Lookup(single, k))
  }

  /** The six scalar fields as read from their nodes. */
  datatype Read = Read(name: Value, color: Value, memory: Value, manufacturer: Value, sku: Value, reviews: Value)

  function ReadScalars(single: map<Key, Node>): Read {
    Read(TextOf(single, Name), TextOf(single, Color), TextOf(single, BuiltinMemory),
         TextOf(single, Manufacturer), TextOf(single, Sku), TextOf(single, ReviewsCount))
  }

  /** The value read for the scalar field `k`. */
  function ValueOf(r: Read, k: Key): Value
    requires k in TextFields
  {
    match k
    case Name => r.name
    case Color => r.color
    case BuiltinMemory => r.memory
    case Manufacturer => r.manufacturer
    case Sku => r.sku
    case ReviewsCount => r.reviews
  }

  /** The same reading with field `k` replaced by None. */
  function Cleared(r: Read, k: Key): Read
    requires k in TextFields
  {
    match k
    case Name => r.(name := Null)
    case Color => r.(color := Null)
    case BuiltinMemory => r.(memory := Null)
    case Manufacturer => r.(manufacturer := Null)
    case Sku => r.(sku := Null)
    case ReviewsCount => r.(reviews := Null)
  }

  /** Every scalar selector matched; Playwright's locators raise otherwise. */
  predicate AllScalarsPresent(single: map<Key, Node>) {
    && Name in single && Color in single && BuiltinMemory in single
    && Manufacturer in single && Sku in single && ReviewsCount in single
  }

  /** The dict before the characteristics block, written in the order of the
      browser scripts: the six scalars, the two prices, the images. */
  function Assemble(r: Read, regular: Value, sale: Value, images: Value): Info {
    map[][Name := r.name][Color := r.color][BuiltinMemory := r.memory][Manufacturer := r.manufacturer]
         [Sku := r.sku][ReviewsCount := r.reviews][PriceRegular := regular][PriceSale := sale][Images := images]
  }

  /** Every field of `product_info` but the characteristics and the promoted
      screen keys. With Playwright, a scalar selector that matches nothing
      raises; every such failure raises the same error, so which field fails
      first does not matter. The scalars never raise otherwise, so reading them
      before the prices gives the outcome of every script. */
  function Fields(b: Backend, single: map<Key, Node>, prices: seq<Node>, images: seq<Node>): (r: Outcome<Info>)
    ensures r.Raised? <==> (b == Playwright && !AllScalarsPresent(single))
                           || (|prices| >= 1 && prices[0].text.None?) || (|prices| >= 2 && prices[1].text.None?)
    ensures r.Returned? ==> r.value.Keys == TextFields + {PriceRegular, PriceSale, Images}
  {
    if b == Playwright && !AllScalarsPresent(single) then Raised(TimeoutError)
    else
      match PriceAt(prices, 0)
      case Raised(e) => Raised(e)
      case Returned(regular) =>
        match PriceAt(prices, 1)
        case Raised(e) => Raised(e)
        case Returned(sale) => Returned(Assemble(ReadScalars(single), regular, sale, Srcs(SrcsOf(images))))
  }

  /** `product_info` once the whole page has been read. */
  function ProductData(b: Backend, d: Document): (r: Outcome<Info>)
    ensures r.Raised? ==> r.exc == ValueError || r.exc == AttributeError || (b == Playwright && r.exc == TimeoutError)
    ensures r.Returned? ==> Fields(b, d.single, d.prices, d.images).Returned? && Characteristics in r.value
  {
    match Fields(b, d.single, d.prices, d.images)
    case Raised(e) => Raised(e)
    case Returned(info) => WithCharacteristics(b, d.groups, info)
  }

  // ---------------------------------------------------------------------------
  // The assembled dict

  /** The assembled dict holds exactly the six scalars, the two prices and the
      images, each under its own key. */
  lemma AssembleHoldsEachField(r: Read, regular: Value, sale: Value, images: Value)
    ensures var info := Assemble(r, regular, sale, images);
            && info.Keys == TextFields + {PriceRegular, PriceSale, Images}
            && (forall k :: k in TextFields ==> info[k] == ValueOf(r, k))
            && info[PriceRegular] == regular && info[PriceSale] == sale && info[Images] == images
  {
  }

  /** modules/2_get_info.py writes the SKU and the reviews count after the
      prices; the dict is the same. */
  lemma SoupOrderAssembles(r: Read, regular: Value, sale: Value, images: Value)
    ensures map[][Name := r.name][Color := r.color][BuiltinMemory := r.memory][Manufacturer := r.manufacturer]
                 [PriceRegular := regular][PriceSale := sale][Sku := r.sku][ReviewsCount := r.reviews][Images := images]
            == Assemble(r, regular, sale, images)
  {
  }

  /** Clearing one reading clears that key of the dict and nothing else. */
  lemma AssembleCleared(r: Read, regular: Value, sale: Value, images: Value, k: Key)
    requires k in TextFields
    ensures Assemble(Cleared(r, k), regular, sale, images) == Assemble(r, regular, sale, images)[k := Null]
  {
  }

  /** Dropping the node of field `k` clears that reading and no other. */
  lemma ReadScalarsWithout(single: map<Key, Node>, k: Key)
    requires k in TextFields
    ensures ReadScalars(single - {k}) == Cleared(ReadScalars(single), k)
  {
  }

  /** Once the fields are read, the characteristics block decides the outcome. */
  lemma ProductDataOfFields(b: Backend, d: Document, info: Info)
    requires Fields(b, d.single, d.prices, d.images) == Returned(info)
    ensures ProductData(b, d) == WithCharacteristics(b, d.groups, info)
  {
  }

  /** A price read that raises ends the extraction with its exception. */
  lemma ProductDataPriceRaised(b: Backend, d: Document, i: nat)
    requires i < 2 && (b == Playwright ==> AllScalarsPresent(d.single))
    requires i == 1 ==> PriceAt(d.prices, 0).Returned?
    requires PriceAt(d.prices, i).Raised?
    ensures ProductData(b, d) == Raised(PriceAt(d.prices, i).exc)
  {
    assert Fields(b, d.single, d.prices, d.images) == Raised(PriceAt(d.prices, i).exc);
  }

  /** A returned dict is the characteristics block applied to the fields. */
  lemma FieldsThenCharacteristics(b: Backend, d: Document)
    requires ProductData(b, d).Returned?
    ensures Fields(b, d.single, d.prices, d.images).Returned?
    ensures ProductData(b, d) == WithCharacteristics(b, d.groups, Fields(b, d.single, d.prices, d.images).value)
  {
  }

  /** The fields before the characteristics: the six scalars, the two prices
      and the images. */
  lemma FieldsHoldEachField(b: Backend, single: map<Key, Node>, prices: seq<Node>, images: seq<Node>)
    requires Fields(b, single, prices, images).Returned?
    ensures PriceAt(prices, 0).Returned? && PriceAt(prices, 1).Returned?
    ensures var info := Fields(b, single, prices, images).value;
            && info.Keys == TextFields + {PriceRegular, PriceSale, Images}
            && (forall k :: k in TextFields ==> info[k] == TextOf(single, k))
            && info[PriceRegular] == PriceAt(prices, 0).value && info[PriceSale] == PriceAt(prices, 1).value
            && info[Images] == Srcs(SrcsOf(images))
  {
    var r := ReadScalars(single);
    AssembleHoldsEachField(r, PriceAt(prices, 0).value, PriceAt(prices, 1).value, Srcs(SrcsOf(images)));
    forall k | k in TextFields
      ensures ValueOf(r, k) == TextOf(single, k)
    {
    }
  }

  // ---------------------------------------------------------------------------
  // The characteristics block and the other keys

  /** The characteristics block leaves every other key as it found it. */
  lemma CharacteristicsKeep(b: Backend, groups: seq<Group>, info: Info, k: Key)
    requires k != ScreenDiagonal && k != ScreenResolution && k != Characteristics
    requires WithCharacteristics(b, groups, info).Returned?
    ensures k in WithCharacteristics(b, groups, info).value <==> k in info
    ensures k in info ==> WithCharacteristics(b, groups, info).value[k] == info[k]
  {
  }

  /** The characteristics block adds `characteristics` and, when some row was
      promoted, the screen keys, to a dict that had none of them. */
  lemma CharacteristicsKeys(b: Backend, groups: seq<Group>, info: Info)
    requires ScreenDiagonal !in info && ScreenResolution !in info
    requires WithCharacteristics(b, groups, info).Returned?
    ensures var r := WithCharacteristics(b, groups, info).value;
            var pr := ParseGroups(b, groups).value.promoted;
            && r.Keys - {ScreenDiagonal, ScreenResolution} == info.Keys + {Characteristics}
            && (ScreenDiagonal in r <==> pr.diagonal.Some?)
            && (ScreenDiagonal in r ==> r[ScreenDiagonal] == pr.diagonal.value)
            && (ScreenResolution in r <==> pr.resolution.Some?)
            && (ScreenResolution in r ==> r[ScreenResolution] == pr.resolution.value)
            && r[Characteristics] == Table(ParseGroups(b, groups).value.entries)
  {
  }

  /** Writing a key that the characteristics block never writes commutes with it. */
  lemma WithCharacteristicsFrame(b: Backend, groups: seq<Group>, info: Info, k: Key, v: Value)
    requires k != ScreenDiagonal && k != ScreenResolution && k != Characteristics
    ensures WithCharacteristics(b, groups, info[k := v]).Raised? == WithCharacteristics(b, groups, info).Raised?
    ensures WithCharacteristics(b, groups, info).Returned? ==>
              WithCharacteristics(b, groups, info[k := v]).value == WithCharacteristics(b, groups, info).value[k := v]
  {
    if ParseGroups(b, groups).Returned? {
      var p := ParseGroups(b, groups).value;
      var x := Promote(info, p.promoted)[Characteristics := Table(p.entries)];
      var y := Promote(info[k := v], p.promoted)[Characteristics := Table(p.entries)];
      assert y == x[k := v];
    }
  }

  // ---------------------------------------------------------------------------
  // What the extraction promises

  /** Each scalar field holds the stripped text of its node, and is None exactly
      when its selector matched nothing or the node had no text. */
  lemma TextFieldReadsItsNode(b: Backend, d: Document, k: Key)
    requires k in TextFields && ProductData(b, d).Returned?
    ensures k in ProductData(b, d).value
    ensures ProductData(b, d).value[k] == TextOf(d.single, k)
    ensures ProductData(b, d).value[k] == Null <==> k !in d.single || d.single[k].text.None?
  {
    FieldsThenCharacteristics(b, d);
    FieldsHoldEachField(b, d.single, d.prices, d.images);
    CharacteristicsKeep(b, d.groups, Fields(b, d.single, d.prices, d.images).value, k);
  }

  lemma FieldsWithoutNode(b: Backend, single: map<Key, Node>, prices: seq<Node>, images: seq<Node>, k: Key)
    requires b != Playwright && k in TextFields && Fields(b, single, prices, images).Returned?
    ensures Fields(b, single - {k}, prices, images) == Returned(Fields(b, single, prices, images).value[k := Null])
  {
    ReadScalarsWithout(single, k);
    AssembleCleared(ReadScalars(single), PriceAt(prices, 0).value, PriceAt(prices, 1).value, Srcs(SrcsOf(images)), k);
  }

  /** With BeautifulSoup or Selenium, a field whose selector stops matching
      becomes None and nothing else in the dict changes. */
  lemma TextFieldsIndependent(b: Backend, d: Document, k: Key)
    requires b != Playwright && k in TextFields && ProductData(b, d).Returned?
    ensures ProductData(b, d.(single := d.single - {k})) == Returned(ProductData(b, d).value[k := Null])
  {
    FieldsThenCharacteristics(b, d);
    FieldsWithoutNode(b, d.single, d.prices, d.images, k);
    WithCharacteristicsFrame(b, d.groups, Fields(b, d.single, d.prices, d.images).value, k, Null);
  }

  /** With Playwright a field whose selector matches nothing is not None: the
      locator's error escapes `save_text_value` and nothing is returned. */
  lemma PlaywrightMissingNodeRaises(d: Document, k: Key)
    requires k in TextFields && k !in d.single
    ensures ProductData(Playwright, d) == Raised(TimeoutError)
  {
  }

  /** Playwright turns only a node without text into None. */
  lemma PlaywrightTextlessNodeIsNone(d: Document, k: Key)
    requires k in TextFields && AllScalarsPresent(d.single) && d.single[k].text.None?
    requires ProductData(Playwright, d).Returned?
    ensures ProductData(Playwright, d).value[k] == Null
  {
    TextFieldReadsItsNode(Playwright, d, k);
  }

  /** The first price span is the regular price and the second the sale price;
      a missing span gives None. */
  lemma PriceSplit(b: Backend, d: Document)
    requires ProductData(b, d).Returned?
    ensures var info := ProductData(b, d).value;
            && PriceRegular in info && PriceSale in info
            && info[PriceRegular] == (if |d.prices| >= 1 then Str(Strip(d.prices[0].text.value)) else Null)
            && info[PriceSale] == (if |d.prices| >= 2 then Str(Strip(d.prices[1].text.value)) else Null)
  {
    FieldsThenCharacteristics(b, d);
    FieldsHoldEachField(b, d.single, d.prices, d.images);
    var info := Fields(b, d.single, d.prices, d.images).value;
    CharacteristicsKeep(b, d.groups, info, PriceRegular);
    CharacteristicsKeep(b, d.groups, info, PriceSale);
  }

  /** Price spans after the second are never read. */
  lemma ExtraPricesIgnored(b: Backend, d: Document)
    requires |d.prices| > 2
    ensures ProductData(b, d) == ProductData(b, d.(prices := d.prices[..2]))
  {
    var d' := d.(prices := d.prices[..2]);
    assert PriceAt(d'.prices, 0) == PriceAt(d.prices, 0);
    assert PriceAt(d'.prices, 1) == PriceAt(d.prices, 1);
    assert Fields(b, d'.single, d'.prices, d'.images) == Fields(b, d.single, d.prices, d.images);
  }

  /** A price span without text is not a missing price: the AttributeError
      escapes, since only IndexError is handled. */
  lemma TextlessPriceRaises(b: Backend, d: Document, i: nat)
    requires i < 2 && i < |d.prices| && d.prices[i].text.None?
    requires b == Playwright ==> AllScalarsPresent(d.single)
    ensures ProductData(b, d) == Raised(AttributeError)
  {
    if i == 1 && PriceAt(d.prices, 0).Raised? {
      ProductDataPriceRaised(b, d, 0);
    } else {
      assert PriceAt(d.prices, i) == Raised(AttributeError);
      ProductDataPriceRaised(b, d, i);
    }
  }

  /** `images` lists the `src` of every matched image in document order; no
      match gives the empty list, not None. */
  lemma ImagesInDocumentOrder(b: Backend, d: Document)
    requires ProductData(b, d).Returned?
    ensures var info := ProductData(b, d).value;
            && Images in info && info[Images].Srcs?
            && |info[Images].srcs| == |d.images|
            && forall i :: 0 <= i < |d.images| ==> info[Images].srcs[i] == d.images[i].src
  {
    FieldsThenCharacteristics(b, d);
    FieldsHoldEachField(b, d.single, d.prices, d.images);
    CharacteristicsKeep(b, d.groups, Fields(b, d.single, d.prices, d.images).value, Images);
  }

  /** The dict holds the ten extracted keys, plus `screen_diagonal` and
      `screen_resolution` exactly when some parsed row, in any block, is named
      after them; the last such row gives the value (None if its value could
      not be read). `characteristics` is the parsed list. */
  lemma ResultKeysAndPromotion(b: Backend, d: Document)
    requires ProductData(b, d).Returned?
    ensures var info := ProductData(b, d).value;
            var diagonal := LastLabelled(b, ParsedRows(b, d.groups), DiagonalLabel);
            var resolution := LastLabelled(b, ParsedRows(b, d.groups), ResolutionLabel);
            && info.Keys - {ScreenDiagonal, ScreenResolution} ==
               TextFields + {PriceRegular, PriceSale, Images, Characteristics}
            && (ScreenDiagonal in info <==> diagonal.Some?)
            && (ScreenDiagonal in info ==> info[ScreenDiagonal] == diagonal.value)
            && (ScreenResolution in info <==> resolution.Some?)
            && (ScreenResolution in info ==> info[ScreenResolution] == resolution.value)
            && info[Characteristics] == Table(ParseGroups(b, d.groups).value.entries)
  {
    FieldsThenCharacteristics(b, d);
    ExtractedKeys(b, d.groups, Fields(b, d.single, d.prices, d.images).value);
  }

  lemma ExtractedKeys(b: Backend, groups: seq<Group>, info: Info)
    requires info.Keys == TextFields + {PriceRegular, PriceSale, Images}
    requires WithCharacteristics(b, groups, info).Returned?
    ensures var r := WithCharacteristics(b, groups, info).value;
            var diagonal := LastLabelled(b, ParsedRows(b, groups), DiagonalLabel);
            var resolution := LastLabelled(b, ParsedRows(b, groups), ResolutionLabel);
            && r.Keys - {ScreenDiagonal, ScreenResolution} ==
               TextFields + {PriceRegular, PriceSale, Images, Characteristics}
            && (ScreenDiagonal in r <==> diagonal.Some?)
            && (ScreenDiagonal in r ==> r[ScreenDiagonal] == diagonal.value)
            && (ScreenResolution in r <==> resolution.Some?)
            && (ScreenResolution in r ==> r[ScreenResolution] == resolution.value)
            && r[Characteristics] == Table(ParseGroups(b, groups).value.entries)
  {
    CharacteristicsKeys(b, groups, info);
    PromotedFromLastLabelledRow(b, groups);
  }

  /** With BeautifulSoup or Selenium, once the prices read cleanly the only way
      the extraction raises is a short characteristics row, and it raises the
      unpacking's ValueError. */
  lemma ShortRowAborts(b: Backend, d: Document)
    requires b != Playwright
    requires forall i :: 0 <= i < 2 && i < |d.prices| ==> d.prices[i].text.Some?
    ensures ProductData(b, d).Raised? <==> HasShortRow(ParsedRows(b, d.groups))
    ensures ProductData(b, d).Raised? ==> ProductData(b, d).exc == ValueError
  {
    assert PriceAt(d.prices, 0).Returned? && PriceAt(d.prices, 1).Returned?;
    ShortRowRaises(b, d.groups);
  }
}
