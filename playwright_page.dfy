/** `parse_product_data(page)` in modules/4_get_info_playwright.py: the
    product page read through Playwright locators. */
module PlaywrightPage {
  import opened Base
  import opened Schema
  import opened Dom
  import opened Extraction
  import opened ProductPage

  /** The fields in the order the script reads them. `save_text_value` catches
      only an AttributeError, so a scalar locator that matches nothing ends the
      extraction with the locator's error. The rendered page is a parameter;
      the navigation that reaches it is not part of this model. */
  method ParseProductData(d: Document) returns (r: Outcome<Info>)
    ensures r == ProductData(Playwright, d)
  {
    var info: Info := map[];
    var name := LocatorText(Lookup(d.single, Name));
    if name.Raised? {
      PlaywrightMissingNodeRaises(d, Name);
      return Raised(name.exc);
    }
    info := info[Name := name.value];
    var color := LocatorText(Lookup(d.single, Color));
    if color.Raised? {
      PlaywrightMissingNodeRaises(d, Color);
      return Raised(color.exc);
    }
    info := info[Color := color.value];
    var memory := LocatorText(Lookup(d.single, BuiltinMemory));
    if memory.Raised? {
      PlaywrightMissingNodeRaises(d, BuiltinMemory);
      return Raised(memory.exc);
    }
    info := info[BuiltinMemory := memory.value];
    var manufacturer := LocatorText(Lookup(d.single, Manufacturer));
    if manufacturer.Raised? {
      PlaywrightMissingNodeRaises(d, Manufacturer);
      return Raised(manufacturer.exc);
    }
    info := info[Manufacturer := manufacturer.value];
    var sku := LocatorText(Lookup(d.single, Sku));
    if sku.Raised? {
      PlaywrightMissingNodeRaises(d, Sku);
      return Raised(sku.exc);
    }
    info := info[Sku := sku.value];
    var reviews := LocatorText(Lookup(d.single, ReviewsCount));
    if reviews.Raised? {
      PlaywrightMissingNodeRaises(d, ReviewsCount);
      return Raised(reviews.exc);
    }
    info := info[ReviewsCount := reviews.value];
    assert AllScalarsPresent(d.single);
    var regular := PriceAt(d.prices, 0);
    if regular.Raised? {
      ProductDataPriceRaised(Playwright, d, 0);
      return Raised(regular.exc);
    }
    info := info[PriceRegular := regular.value];
    var sale := PriceAt(d.prices, 1);
    if sale.Raised? {
      ProductDataPriceRaised(Playwright, d, 1);
      return Raised(sale.exc);
    }
    info := info[PriceSale := sale.value];
    var srcs := CollectSrcs(d.images);
    assert srcs == SrcsOf(d.images);
    info := info[Images := Srcs(srcs)];
    ProductDataOfFields(Playwright, d, info);
    r := ParseCharacteristics(Playwright, d.groups, info);
  }
}
