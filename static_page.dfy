/** `get_product_data(url)` in modules/2_get_info.py: fetch the page with the
    shared HTTP session, then read it with BeautifulSoup. */
module StaticPage {
  import opened Base
  import opened Schema
  import opened Dom
  import opened Extraction
  import opened ProductPage

  /** The fields in the order the script reads them: the four scalars, the two
      prices, the SKU, the reviews count, the images and the characteristics.
      A failed fetch gives None and never a partial dict; an exception that
      escapes the extraction is not a `RequestException` and propagates. */
  method GetProductData(resp: Response) returns (r: Outcome<Option<Info>>)
    ensures r == Returned(None) <==> FetchFails(resp)
    ensures !FetchFails(resp) && ProductData(Soup, resp.doc).Returned? ==>
              r == Returned(Some(ProductData(Soup, resp.doc).value))
    ensures !FetchFails(resp) && ProductData(Soup, resp.doc).Raised? ==>
              r == Raised(ProductData(Soup, resp.doc).exc)
  {
    if resp.Unreachable? || RaisesForStatus(resp.statusCode) {
      return Returned(None);
    }
    var d := resp.doc;
    var info: Info := map[];
    info := info[Name := TextOf(d.single, Name)];
    info := info[Color := TextOf(d.single, Color)];
    info := info[BuiltinMemory := TextOf(d.single, BuiltinMemory)];
    info := info[Manufacturer := TextOf(d.single, Manufacturer)];
    var regular := PriceAt(d.prices, 0);
    if regular.Raised? {
      ProductDataPriceRaised(Soup, d, 0);
      return Raised(regular.exc);
    }
    info := info[PriceRegular := regular.value];
    var sale := PriceAt(d.prices, 1);
    if sale.Raised? {
      ProductDataPriceRaised(Soup, d, 1);
      return Raised(sale.exc);
    }
    info := info[PriceSale := sale.value];
    info := info[Sku := TextOf(d.single, Sku)];
    info := info[ReviewsCount := TextOf(d.single, ReviewsCount)];
    var srcs := CollectSrcs(d.images);
    assert srcs == SrcsOf(d.images);
    info := info[Images := Srcs(srcs)];
    SoupOrderAssembles(ReadScalars(d.single), regular.value, sale.value, Srcs(srcs));
    ProductDataOfFields(Soup, d, info);
    var withCharacteristics := ParseCharacteristics(Soup, d.groups, info);
    if withCharacteristics.Raised? {
      return Raised(withCharacteristics.exc);
    }
    return Returned(Some(withCharacteristics.value));
  }
}
