/** `parse_product_data(driver, wait)` in modules/3_get_info_selenium.py: the
    product page as Chrome renders it, read element by element. */
module SeleniumPage {
  import opened Base
  import opened Schema
  import opened Dom
  import opened Extraction
  import opened ProductPage

  /** The fields in the order the script reads them: the six scalars through
      `save_text_value`, the two prices, the images, the characteristics. The
      rendered page is a parameter; the clicks that reach it are not part of
      this model. */
  method ParseProductData(d: Document) returns (r: Outcome<Info>)
    ensures r == ProductData(Selenium, d)
  {
    var info: Info := map[];
    info := info[Name := TextOf(d.single, Name)];
    info := info[Color := TextOf(d.single, Color)];
    info := info[BuiltinMemory := TextOf(d.single, BuiltinMemory)];
    info := info[Manufacturer := TextOf(d.single, Manufacturer)];
    info := info[Sku := TextOf(d.single, Sku)];
    info := info[ReviewsCount := TextOf(d.single, ReviewsCount)];
    var regular := PriceAt(d.prices, 0);
    if regular.Raised? {
      ProductDataPriceRaised(Selenium, d, 0);
      return Raised(regular.exc);
    }
    info := info[PriceRegular := regular.value];
    var sale := PriceAt(d.prices, 1);
    if sale.Raised? {
      ProductDataPriceRaised(Selenium, d, 1);
      return Raised(sale.exc);
    }
    info := info[PriceSale := sale.value];
    var srcs := CollectSrcs(d.images);
    assert srcs == SrcsOf(d.images);
    info := info[Images := Srcs(srcs)];
    ProductDataOfFields(Selenium, d, info);
    r := ParseCharacteristics(Selenium, d.groups, info);
  }
}
